/** The bounded record of config_apply ids already handled (internal/agent/agent.go). */
module Dedup {
  import opened Sequences

  const MAX_SEEN: nat := 32

  /** The last MAX_SEEN entries of a history. */
  function Window(history: seq<string>): (w: seq<string>)
    ensures |w| == if |history| <= MAX_SEEN then |history| else MAX_SEEN
  {
    if |history| <= MAX_SEEN then history else history[|history| - MAX_SEEN..]
  }

  /** The id is one of the last 32 acceptances. */
  ghost predicate Recent(history: seq<string>, id: string)
  {
    exists i: nat :: |history| - 32 <= i < |history| && history[i] == id
  }

  lemma WindowIsRecent(history: seq<string>, id: string)
    ensures id in Window(history) <==> Recent(history, id)
  {
    var w := Window(history);
    var from := |history| - |w|;
    if id in w {
      var k :| 0 <= k < |w| && w[k] == id;
      assert history[from + k] == id;
    }
    if Recent(history, id) {
      var i: nat :| |history| - 32 <= i < |history| && history[i] == id;
      assert w[i - from] == id;
    }
  }

  /** Every id was accepted only when the record no longer held it. */
  ghost predicate Admitted(history: seq<string>)
  {
    forall i: nat :: i < |history| ==> AdmittedAt(history, i)
  }

  predicate AdmittedAt(history: seq<string>, i: nat)
    requires i < |history|
  {
    history[i] !in Window(history[..i])
  }

  lemma AdmittedSnoc(history: seq<string>, id: string)
    requires Admitted(history) && id !in Window(history)
    ensures Admitted(history + [id])
  {
    var longer := history + [id];
    forall i: nat | i < |longer| ensures AdmittedAt(longer, i) {
      if i < |history| {
        assert AdmittedAt(history, i);
        assert longer[..i] == history[..i] && longer[i] == history[i];
      } else {
        assert longer[..i] == history;
      }
    }
  }

  lemma RecentIsInWindow(history: seq<string>, i: nat)
    requires i < |history| <= i + MAX_SEEN
    ensures history[i] in Window(history)
  {
    assert history[i] == Window(history)[i - (|history| - |Window(history)|)];
  }

  /** Acceptances at most MAX_SEEN apart are of different ids. */
  lemma NearbyDiffer(history: seq<string>, i: nat, j: nat)
    requires Admitted(history) && i < j < |history|
    ensures j - i <= MAX_SEEN ==> history[i] != history[j]
  {
    assert AdmittedAt(history, j);
    if j - i <= MAX_SEEN {
      RecentIsInWindow(history[..j], i);
    }
  }

  /** Any stretch of at most 33 acceptances is duplicate-free. */
  lemma WindowsHaveNoRepeats(history: seq<string>, from: nat, to: nat)
    requires Admitted(history) && from <= to <= |history| && to - from <= 33
    ensures NoRepeats(history[from..to])
  {
    var part := history[from..to];
    forall i, j | 0 <= i < j < |part| ensures part[i] != part[j] {
      var k, l := from + i, from + j;
      NearbyDiffer(history, k, l);
      assert part[i] == history[k] && part[j] == history[l];
    }
  }

  function Ids(ids: seq<string>): set<string>
  {
    set id | id in ids
  }

  lemma {:induction false} CountNoRepeats(ids: seq<string>)
    requires NoRepeats(ids)
    ensures |Ids(ids)| == |ids|
  {
    if ids != [] {
      var front, last := ids[..|ids| - 1], ids[|ids| - 1];
      CountNoRepeats(front);
      assert ids == front + [last];
      assert Ids(ids) == Ids(front) + {last};
    }
  }

  /** The MAX_SEEN acceptances before one are all different, and different from it. */
  lemma RecentOthers(history: seq<string>, j: nat)
    requires Admitted(history) && MAX_SEEN <= j < |history|
    ensures |Ids(history[j - MAX_SEEN..j])| == MAX_SEEN && history[j] !in history[j - MAX_SEEN..j]
  {
    WindowsHaveNoRepeats(history, j - MAX_SEEN, j + 1);
    var recent, others := history[j - MAX_SEEN..j + 1], history[j - MAX_SEEN..j];
    assert recent[..MAX_SEEN] == others && recent[MAX_SEEN] == history[j];
    CountNoRepeats(others);
  }

  /** Between two acceptances of one id, at least 32 different other ids were accepted. */
  lemma ReacceptedAfterManyOthers(history: seq<string>, i: nat, j: nat)
    requires Admitted(history) && i < j < |history| && history[i] == history[j]
    ensures |Ids(history[i + 1..j]) - {history[j]}| >= 32
  {
    NearbyDiffer(history, i, j);
    RecentOthers(history, j);
    var others, between := history[j - MAX_SEEN..j], history[i + 1..j];
    assert between[|between| - MAX_SEEN..] == others;
    SubsetCount(Ids(others), Ids(between) - {history[j]});
  }

  /** Forgetting the oldest of a duplicate-free list. */
  lemma IdsOfTail(ids: seq<string>)
    requires ids != [] && NoRepeats(ids)
    ensures Ids(ids[1..]) == Ids(ids) - {ids[0]} && NoRepeats(ids[1..])
  {
    assert ids == [ids[0]] + ids[1..];
  }

  lemma IdsOfLonger(ids: seq<string>, id: string)
    requires NoRepeats(ids) && id !in ids
    ensures Ids(ids + [id]) == Ids(ids) + {id} && NoRepeats(ids + [id])
  {
  }

  lemma {:induction false} SubsetCount(a: set<string>, b: set<string>)
    requires a <= b
    ensures |a| <= |b|
    decreases |a|
  {
    if a != {} {
      var x :| x in a;
      SubsetCount(a - {x}, b - {x});
    }
  }

  /** seenConfigApplyIDs and seenConfigApplyOrder, with every acceptance ever made as ghost history. */
  class SeenConfigApply {
    var ids: set<string>
    var order: seq<string>
    ghost var accepted: seq<string>

    ghost predicate Valid()
      reads this
    {
      && Admitted(accepted)
      && order == Window(accepted)
      && NoRepeats(order)
      && ids == Ids(order)
    }

    constructor ()
      ensures Valid() && accepted == []
    {
      ids, order, accepted := {}, [], [];
    }

    /** True for a redelivery; the first time an id is seen it is recorded, and the oldest one forgotten. */
    method WasConfigApplySeen(cmdID: string) returns (seen: bool)
      requires Valid()
      modifies this
      ensures Valid()
      ensures seen <==> cmdID in Window(old(accepted))
      ensures seen <==> Recent(old(accepted), cmdID)
      ensures accepted == if seen then old(accepted) else old(accepted) + [cmdID]
    {
      WindowIsRecent(accepted, cmdID);
      if cmdID in ids {
        return true;
      }
      AdmittedSnoc(accepted, cmdID);
      IdsOfLonger(order, cmdID);
      ids := ids + {cmdID};
      order := order + [cmdID];
      accepted := accepted + [cmdID];
      if |order| > MAX_SEEN {
        IdsOfTail(order);
        var oldest := order[0];
        order := order[1..];
        ids := ids - {oldest};
      }
      return false;
    }
  }
}
