/** Stacks, queues and flag arrays seen as sets, for searches over a finite graph. */
module Worklists {
  function Elems<T>(q: seq<T>): set<T> {
    set x | x in q
  }

  lemma Popped<T>(q: seq<T>)
    requires q != []
    ensures Elems(q) == Elems(q[..|q| - 1]) + {q[|q| - 1]}
  {
    assert q == q[..|q| - 1] + [q[|q| - 1]];
  }

  lemma Pushed<T>(q: seq<T>, x: T)
    ensures Elems(q + [x]) == Elems(q) + {x}
  {
  }

  function Flagged(flags: seq<bool>): set<nat> {
    set k: nat | k < |flags| && flags[k]
  }

  function Unflagged(flags: seq<bool>): set<nat> {
    set k: nat | k < |flags| && !flags[k]
  }

  lemma FlagSet(flags: seq<bool>, k: nat)
    requires k < |flags|
    ensures Flagged(flags[k := true]) == Flagged(flags) + {k}
    ensures Unflagged(flags[k := true]) == Unflagged(flags) - {k}
  {
  }

  /** Setting one more flag leaves fewer unset. */
  lemma FlagFirst(flags: seq<bool>, k: nat)
    requires k < |flags| && !flags[k]
    ensures Unflagged(flags[k := true]) < Unflagged(flags)
  {
    assert k in Unflagged(flags);
    FlagSet(flags, k);
  }

  lemma FewerUnflagged(was: seq<bool>, now: seq<bool>)
    requires |was| == |now| && Flagged(was) <= Flagged(now)
    ensures Unflagged(now) <= Unflagged(was)
    ensures was != now ==> Unflagged(now) < Unflagged(was)
  {
    forall k: nat | k < |was| && was[k] ensures now[k] {
      assert k in Flagged(was);
    }
    if Unflagged(now) == Unflagged(was) {
      forall k | 0 <= k < |was| ensures was[k] == now[k] {
        assert k in Unflagged(was) <==> k in Unflagged(now);
      }
    }
  }
}
