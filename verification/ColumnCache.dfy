/** The index from column name to column number that a range primes before its first row. */
module ColumnCache {
  import opened Prelude

  /** The least column of that name. */
  function FirstColumn(names: seq<string>, name: string): (r: Option<nat>)
    ensures r.Some? ==> r.value < |names| && names[r.value] == name
    ensures r.Some? ==> forall i :: 0 <= i < r.value ==> names[i] != name
    ensures r.None? ==> name !in names
  {
    if names == [] then None
    else if names[0] == name then Some(0)
    else
      match FirstColumn(names[1..], name)
      case None => None
      case Some(i) => Some(i + 1)
  }

  class Cache {
    var names: seq<string>
    var lookup: map<string, nat>

    /** The index has every name of the list, each with its least column. */
    ghost predicate Primed()
      reads this
    {
      && (forall name :: name in lookup <==> name in names)
      && (forall name :: name in lookup ==> Some(lookup[name]) == FirstColumn(names, name))
    }

    constructor ()
      ensures names == [] && lookup == map[] && Primed()
    {
      names, lookup := [], map[];
    }

    lemma EmptyTogether()
      requires Primed()
      ensures lookup == map[] <==> names == []
    {
      assert forall i :: 0 <= i < |names| ==> names[i] in lookup;
      assert forall name :: name in lookup ==> name in names;
    }

    /** `prime_cache`: an index that already has entries is left as it is. */
    method Prime(columns: seq<string>)
      requires Primed()
      modifies this
      ensures Primed()
      ensures names == if old(names) == [] then columns else old(names)
    {
      EmptyTogether();
      if lookup != map[] {
        return;
      }
      for i := 0 to |columns|
        invariant names == columns[..i]
        invariant forall name :: name in lookup <==> name in columns[..i]
        invariant forall name :: name in lookup ==> Some(lookup[name]) == FirstColumn(columns, name)
      {
        var name := columns[i];
        assert columns[..i + 1] == columns[..i] + [name];
        if name !in lookup {
          FirstHere(columns, i);
          lookup := lookup[name := i];
        }
        names := names + [name];
      }
      assert columns[..|columns|] == columns;
    }

    /** `index_of`: the least column of that name, or the exception when there is none. */
    method IndexOf(name: string) returns (r: Option<nat>)
      requires Primed()
      ensures r.None? <==> name !in names
      ensures r.Some? ==>
                && r.value < |names| && names[r.value] == name
                && forall i :: 0 <= i < r.value ==> names[i] != name
    {
      r := if name in lookup then Some(lookup[name]) else None;
    }
  }

  lemma {:induction false} FirstHere(columns: seq<string>, i: nat)
    requires i < |columns| && columns[i] !in columns[..i]
    ensures FirstColumn(columns, columns[i]) == Some(i)
  {
  }
}
