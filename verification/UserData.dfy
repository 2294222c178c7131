/** The per-scope user data list (src/svdpi_shim.c; IEEE 1800-2017 annex H.9.3). Pointers are
    numbers, 0 for NULL; whether `malloc` succeeds is a parameter. */
module UserData {
  class Entry {
    const scope: nat
    const key: nat
    var data: nat
    const next: Entry?

    constructor (scope: nat, key: nat, data: nat, next: Entry?)
      ensures this.scope == scope && this.key == key && this.data == data && this.next == next
    {
      this.scope, this.key, this.data, this.next := scope, key, data, next;
    }
  }

  class Table {
    var head: Entry?
    /** The entries of the list, oldest first, and the place of each (scope, key) pair in it. */
    ghost var entries: seq<Entry>
    ghost var place: map<(nat, nat), nat>
    /** What the calls promise: the data of each pair. */
    ghost var contents: map<(nat, nat), nat>

    static function Pair(e: Entry): (nat, nat) {
      (e.scope, e.key)
    }

    static ghost function Older(es: seq<Entry>, k: nat): Entry?
      requires k <= |es|
    {
      if k > 0 then es[k - 1] else null
    }

    /** The list from `head` is `es` backwards. */
    static ghost predicate Chain(head: Entry?, es: seq<Entry>) {
      head == Older(es, |es|)
      && forall k {:trigger Older(es, k)} :: 0 <= k < |es| ==> es[k].next == Older(es, k)
    }

    /** Each pair occurs once, at its place. */
    static ghost predicate Placed(es: seq<Entry>, place: map<(nat, nat), nat>) {
      (forall k :: 0 <= k < |es| ==> Pair(es[k]) in place && place[Pair(es[k])] == k)
      && (forall p :: p in place ==> place[p] < |es| && Pair(es[place[p]]) == p)
    }

    static lemma ChainPushed(e: Entry, es: seq<Entry>)
      requires Chain(e.next, es)
      ensures Chain(e, es + [e])
    {
      assert forall k :: 0 <= k < |es| ==> Older(es + [e], k) == Older(es, k);
    }

    static lemma PlacedPushed(e: Entry, es: seq<Entry>, place: map<(nat, nat), nat>)
      requires Placed(es, place) && Pair(e) !in place
      ensures Placed(es + [e], place[Pair(e) := |es|])
    {
    }

    ghost predicate Valid()
      reads this, entries
    {
      Chain(head, entries)
      && Placed(entries, place)
      && contents.Keys == place.Keys
      && (forall k :: 0 <= k < |entries| ==> contents[Pair(entries[k])] == entries[k].data)
      && (forall p :: p in contents ==> p.0 != 0 && p.1 != 0)
    }

    constructor ()
      ensures Valid() && contents == map[]
    {
      head, entries, place, contents := null, [], map[], map[];
    }

    /** The scan both calls make: the entry of the pair, or null. */
    method Find(scope: nat, key: nat) returns (e: Entry?)
      requires Valid()
      ensures e != null <==> (scope, key) in contents
      ensures e != null ==> e in entries && Pair(e) == (scope, key)
    {
      e := head;
      ghost var k := |entries|;
      while e != null
        invariant 0 <= k <= |entries| && e == Older(entries, k)
        invariant forall i :: k <= i < |entries| ==> Pair(entries[i]) != (scope, key)
        decreases k
      {
        if e.scope == scope && e.key == key {
          return;
        }
        k := k - 1;
        assert e.next == Older(entries, k);
        e := e.next;
      }
    }

    method Put(scope: nat, key: nat, data: nat, room: bool) returns (status: int)
      requires Valid()
      modifies this, entries
      ensures Valid()
      ensures status == if scope != 0 && key != 0 && (room || (scope, key) in old(contents)) then 0 else -1
      ensures contents == if status == 0 then old(contents)[(scope, key) := data] else old(contents)
    {
      if scope == 0 || key == 0 {
        return -1;
      }
      var e := Find(scope, key);
      if e != null {
        e.data := data;
        contents := contents[(scope, key) := data];
        return 0;
      }
      if !room {
        return -1;
      }
      Push(scope, key, data);
      return 0;
    }

    /** A new entry at the head of the list. */
    method Push(scope: nat, key: nat, data: nat)
      requires Valid() && scope != 0 && key != 0 && (scope, key) !in contents
      modifies this
      ensures Valid() && contents == old(contents)[(scope, key) := data]
    {
      head := new Entry(scope, key, data, head);
      ChainPushed(head, entries);
      PlacedPushed(head, entries, place);
      place := place[(scope, key) := |entries|];
      contents := contents[(scope, key) := data];
      entries := entries + [head];
    }

    method Get(scope: nat, key: nat) returns (data: nat)
      requires Valid()
      ensures data == if (scope, key) in contents then contents[(scope, key)] else 0
    {
      if scope == 0 || key == 0 {
        return 0;
      }
      var e := Find(scope, key);
      return if e != null then e.data else 0;
    }
  }
}
