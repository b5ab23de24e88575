/**
 * `NamedProperties`: a `java.util.Properties` key/value table that also carries the
 * name of the file it was read from. The name is fixed at construction; the table is
 * filled in place afterwards (`setProperty`, `load`).
 */
module NamedProperties {
  import opened Wrappers

  /** The value of one `NamedProperties` object at a given moment: what the
      consistency check and the loader's specification talk about. */
  datatype Named = Named(name: string, props: map<string, string>)

  class NamedProperties {
    /** Assigned only by the constructor: `final` in all but name in the source. */
    const name: string
    /** The inherited `Hashtable<Object, Object>` contents; keys and values are strings. */
    var props: map<string, string>

    /** `new NamedProperties(name)`: the name as given, no entries yet. */
    constructor (name: string)
      ensures this.name == name
      ensures props == map[]
    {
      this.name := name;
      props := map[];
    }

    /** `getName()`. */
    function GetName(): string
    {
      name
    }

    /** `keySet()`. */
    function KeySet(): set<string>
      reads this
    {
      props.Keys
    }

    /** This object's current value. */
    function Value(): (v: Named)
      reads this
      ensures v.name == GetName() && v.props.Keys == KeySet()
    {
      Named(name, props)
    }

    /** `setProperty(key, value)`: stores the entry and returns the value it replaced. */
    method SetProperty(key: string, value: string) returns (previous: Option<string>)
      modifies this
      ensures props == old(props)[key := value]
      ensures KeySet() == old(KeySet()) + {key}
      ensures previous == if key in old(props) then Some(old(props)[key]) else None
    {
      previous := if key in props then Some(props[key]) else None;
      props := props[key := value];
    }

    /** `load(stream)`: puts every entry the stream yields; the parsing itself, and which
        of two entries with the same key wins, belong to the loader that produced `entries`. */
    method Load(entries: map<string, string>)
      modifies this
      ensures props == old(props) + entries
      ensures KeySet() == old(KeySet()) + entries.Keys
    {
      props := props + entries;
    }

    /** `toString()`: the name, `": "`, then the table's own rendering `table`, whose
        entry order `Hashtable` leaves unspecified. */
    function ToString(table: string): string
    {
      name + ": " + table
    }
  }

  /** The name prefix is fixed, so an object's `toString` tells its tables' renderings
      apart: two strings of the same object are equal exactly when the tables' are. */
  lemma ToStringSeparatesTables(p: NamedProperties, table1: string, table2: string)
    ensures p.ToString(table1) == p.ToString(table2) <==> table1 == table2
  {
    var prefix := p.name + ": ";
    if p.ToString(table1) == p.ToString(table2) {
      assert table1 == (prefix + table1)[|prefix|..];
      assert table2 == (prefix + table2)[|prefix|..];
    }
  }

  /** The current values of a collection of objects, in its iteration order. */
  function Values(ps: seq<NamedProperties>): (vs: seq<Named>)
    reads set p | p in ps
    ensures |vs| == |ps|
    ensures forall i :: 0 <= i < |ps| ==> vs[i] == ps[i].Value()
  {
    seq(|ps|, i reads ps requires 0 <= i < |ps| => ps[i].Value())
  }

  lemma ValuesAppend(ps: seq<NamedProperties>, p: NamedProperties)
    ensures Values(ps + [p]) == Values(ps) + [p.Value()]
  {
    assert forall i :: 0 <= i < |ps| ==> (ps + [p])[i] == ps[i];
  }
}
