/**
 * Storage: the database the pipeline's stages read their input tables from
 * and write their results to, as a map from table names to tables. Writing a
 * table replaces any table of the same name; reading a name the database does
 * not hold fails.
 */
module Storage {
  import opened Tables

  class Store {
    var tables: map<string, Table>

    constructor (initial: map<string, Table>)
      ensures tables == initial
    {
      tables := initial;
    }

    /** table_exists: whether the database holds a table of that name. */
    method Exists(name: string) returns (b: bool)
      ensures b <==> name in tables
    {
      b := name in tables;
    }

    /** read_table_from_sqlite: the table of that name, or a failure when there is none. */
    method Read(name: string) returns (r: Result<Table>)
      ensures r.Ok? <==> name in tables
      ensures r.Ok? ==> r.value == tables[name]
      ensures r.Err? ==> r.error == TableNotFound(name)
    {
      if name in tables {
        r := Ok(tables[name]);
      } else {
        r := Err(TableNotFound(name));
      }
    }

    /** load: to_sql with if_exists='replace'; the table of that name is t afterwards, every other table is kept. */
    method Write(name: string, t: Table)
      modifies this
      ensures tables == old(tables)[name := t]
    {
      tables := tables[name := t];
    }
  }

  /** The table of that name, or a failure when the database has none. */
  function Lookup(t: map<string, Table>, n: string): (r: Result<Table>)
    ensures r.Ok? <==> n in t
    ensures r.Ok? ==> r.value == t[n]
    ensures r.Err? ==> r.error == TableNotFound(n)
  {
    if n in t then Ok(t[n]) else Err(TableNotFound(n))
  }

  /**
   * after keeps every table of before, unchanged, and holds no other tables
   * than those and tables named in names.
   */
  predicate Extends(before: map<string, Table>, after: map<string, Table>, names: seq<string>) {
    && (forall n :: n in before ==> n in after && after[n] == before[n])
    && (forall n :: n in after ==> n in before || n in names)
  }

  /** Writing a table under a new name extends the database by that name. */
  lemma ExtendsByWrite(before: map<string, Table>, name: string, t: Table)
    requires name !in before
    ensures Extends(before, before[name := t], [name])
  {
  }

  /** Extending is transitive, the allowed names adding up. */
  lemma ExtendsTrans(a: map<string, Table>, b: map<string, Table>, c: map<string, Table>, m: seq<string>, n: seq<string>)
    requires Extends(a, b, m) && Extends(b, c, n)
    ensures Extends(a, c, m + n)
  {
  }

  /** Extending a database that already holds every allowed name changes nothing. */
  lemma ExtendsNothing(a: map<string, Table>, b: map<string, Table>, names: seq<string>)
    requires Extends(a, b, names)
    requires forall k :: 0 <= k < |names| ==> names[k] in a
    ensures b == a
  {
    assert b.Keys == a.Keys;
  }
}
