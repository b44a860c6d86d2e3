/**
 * Random alternatives to format strings (src/alternatives.py): a table
 * from a format string to the strings that may stand in for it, which
 * modules merge into at startup.
 */
module AltStore {
  import opened Wrappers

  /** A table of alternatives, as the `dict` of lists the source keeps. */
  type Table = map<string, seq<string>>

  /** The table the store starts from. */
  const InitialTable: Table := map["Welcome %s" := ["Welcome %s", "Hello %s", "How YA doing %s"]]

  /**
   * The table `merge_with` leaves: an incoming list is adopted where the
   * local key is absent or maps to an empty list, and appended to a
   * non-empty local list otherwise.
   */
  function Merged(local: Table, other: Table): Table {
    map k | k in local.Keys + other.Keys ::
      if k !in other then local[k]
      else if k !in local || local[k] == [] then other[k]
      else local[k] + other[k]
  }

  /** Merging one more incoming item updates that one key only. */
  lemma MergedOneMore(local: Table, done: Table, key: string, v: seq<string>)
    requires key !in done
    ensures var m := Merged(local, done);
            && (key in m <==> key in local)
            && (key in m ==> m[key] == local[key])
            && Merged(local, done[key := v])
               == m[key := if key !in local || local[key] == [] then v else local[key] + v]
  {
  }

  /** What merging promises, key by key. */
  lemma MergedSpec(local: Table, other: Table)
    ensures var r := Merged(local, other);
            && r.Keys == local.Keys + other.Keys
            && (forall k :: k in other && (k !in local || local[k] == []) ==> r[k] == other[k])
            && (forall k :: k in other && k in local && local[k] != [] ==> r[k] == local[k] + other[k])
            && (forall k :: k in local && k !in other ==> r[k] == local[k])
            && (forall k :: k in local ==> |r[k]| >= |local[k]| && r[k][..|local[k]|] == local[k])
            && (forall k, x :: k in r && x in r[k] ==> (k in local && x in local[k]) || (k in other && x in other[k]))
  {
    var r := Merged(local, other);
    forall k | k in local
      ensures |r[k]| >= |local[k]| && r[k][..|local[k]|] == local[k]
    {
      if k in other && local[k] != [] {
        assert r[k] == local[k] + other[k];
      }
    }
  }

  /** Merging an empty table changes nothing, and merging into an empty table adopts the incoming one. */
  lemma MergedIdentity(t: Table)
    ensures Merged(t, map[]) == t
    ensures Merged(map[], t) == t
  {
  }

  /** Lists of the store `Alternatives` that the bot and `_` share. */
  class Alternatives {
    var table: Table

    constructor(initial: Table)
      ensures table == initial
    {
      table := initial;
    }

    /**
     * `random_alternative`: the format string itself when it has no entry;
     * otherwise some element of its list, chosen by `random.choice`, which
     * raises on an empty list (`None` here).
     */
    method RandomAlternative(fmt: string) returns (r: Option<string>)
      ensures fmt !in table ==> r == Some(fmt)
      ensures fmt in table && table[fmt] != [] ==> r.Some? && r.value in table[fmt]
      ensures fmt in table && table[fmt] == [] ==> r.None?
    {
      if fmt !in table {
        return Some(fmt);
      }
      var alts := table[fmt];
      if alts == [] {
        return None;
      }
      assert alts[0] in alts;
      var choice :| choice in alts;
      r := Some(choice);
    }

    /** `merge_with`: one pass over the incoming items, updating the table in place. */
    method MergeWith(other: Table)
      modifies this
      ensures table == Merged(old(table), other)
    {
      var todo := other.Keys;
      while todo != {}
        invariant todo <= other.Keys
        invariant table == Merged(old(table), map k | k in other.Keys - todo :: other[k])
        decreases todo
      {
        var key :| key in todo;
        ghost var before := map k | k in other.Keys - todo :: other[k];
        ghost var after := map k | k in other.Keys - (todo - {key}) :: other[k];
        assert key !in before && after == before[key := other[key]];
        MergedOneMore(old(table), before, key, other[key]);
        if key !in table || table[key] == [] {
          table := table[key := other[key]];
        } else {
          var merged := table[key] + other[key];
          table := table[key := merged];
        }
        todo := todo - {key};
      }
      assert (map k | k in other.Keys - todo :: other[k]) == other;
    }
  }
}
