/** Value tracking of an enum's members (src/should_fail_lint.rs, check_enum_values;
    IEEE 1800-2017 section 6.19). What the constant evaluator answers for an initializer or a
    bound is part of the member. */
module EnumValues {
  import opened Results
  import opened Words

  datatype Folded = Value(value: int) | Hidden | NotConstant(syscall: bool)

  /** An initializer: its folded value and, for a sized literal (possibly signed by a unary
      plus or minus), the size it declares. */
  datatype Init = Init(folded: Folded, literalSize: Option<nat>)

  /** The bounds of a name sequence: an x or z digit in one of them, and their values. */
  datatype Bounds = Bounds(undefined: bool, lo: Option<int>, hi: Option<int>)

  datatype Member = Member(name: string, range: Option<Bounds>, init: Option<Init>)

  datatype Report =
    | UndefinedBound(name: string)
    | NegativeBound(name: string)
    | NotAConstant(name: string)
    | Negative(name: string, value: int)
    | TooLarge(name: string, value: int)
    | Overflowed(name: string, value: int)
    | SameValue(name: string, other: string, key: int)

  // ---------------------------------------------------------------- the slots of an enum

  /** The bit pattern of `v` in `width` bits, two's complement. */
  function Pattern(width: nat, v: int): int {
    v % Pow2(width)
  }

  /** One enumerator: its value and bit pattern, whether an initializer gives the value, and
      whether that is a sized literal no wider than the base type. */
  datatype Slot = Slot(name: string, value: int, key: int, explicit: bool, sizedFits: bool)

  /** Why tracking stopped, if it did. */
  datatype Stop = Going | Silent | Saying(report: Report)

  /** A number, or the reason why there is none. */
  datatype Answer = Known(value: int) | Unknown(why: Stop)

  /** The enumerators found before tracking stopped, and the value the next one would get. */
  datatype Tracked = Tracked(slots: seq<Slot>, next: int, stop: Stop)

  function Abs(x: int): nat { if x < 0 then -x else x }

  /** How many enumerators the member stands for. */
  function Count(m: Member): (r: Answer)
    ensures r.Known? ==> r.value > 0
    ensures r.Unknown? ==> !r.why.Going?
  {
    match m.range
    case None => Known(1)
    case Some(b) =>
      if b.undefined then Unknown(Saying(UndefinedBound(m.name)))
      else if b.lo.None? || b.hi.None? then Unknown(Silent)
      else if b.lo.value < 0 || b.hi.value < 0 then Unknown(Saying(NegativeBound(m.name)))
      else Known(Abs(b.hi.value - b.lo.value) + 1)
  }

  /** The value of the member's first enumerator. */
  function Start(m: Member, next: int): (r: Answer)
    ensures r.Unknown? ==> !r.why.Going?
  {
    if m.init.None? then Known(next) else
    match m.init.value.folded
    case Value(v) => Known(v)
    case Hidden => Unknown(Silent)
    case NotConstant(syscall) => Unknown(if syscall then Saying(NotAConstant(m.name)) else Silent)
  }

  function SlotOf(width: nat, m: Member, first: int, s: nat): Slot {
    Slot(m.name, first + s, Pattern(width, first + s), s == 0 && m.init.Some?,
      s == 0 && m.init.Some? && m.init.value.literalSize.Some? && m.init.value.literalSize.value <= width)
  }

  function SlotsOf(width: nat, m: Member, first: int, count: nat): seq<Slot> {
    if count == 0 then [] else SlotsOf(width, m, first, count - 1) + [SlotOf(width, m, first, count - 1)]
  }

  function Track(width: nat, ms: seq<Member>, k: nat): Tracked
    requires k <= |ms|
  {
    if k == 0 then Tracked([], 0, Going) else TrackMember(width, Track(width, ms, k - 1), ms[k - 1])
  }

  function TrackMember(width: nat, t: Tracked, m: Member): Tracked {
    if !t.stop.Going? then t else
    match Count(m)
    case Unknown(why) => t.(stop := why)
    case Known(count) =>
      match Start(m, t.next)
      case Unknown(why) => t.(stop := why)
      case Known(first) => Tracked(t.slots + SlotsOf(width, m, first, count), first + count, Going)
  }

  // ---------------------------------------------------------------- what is reported

  function Least(width: nat, signed: bool): int
    requires width > 0
  {
    if signed then 0 - Pow2(width - 1) else 0
  }

  function Greatest(width: nat, signed: bool): int
    requires width > 0
  {
    if signed then Pow2(width - 1) - 1 else Pow2(width) - 1
  }

  predicate Fits(width: nat, signed: bool, v: int)
    requires width > 0
  {
    Least(width, signed) <= v <= Greatest(width, signed)
  }

  function RangeReports(width: nat, signed: bool, s: Slot): seq<Report>
    requires width > 0
  {
    if s.sizedFits || Fits(width, signed, s.value) then []
    else if !s.explicit then [Overflowed(s.name, s.value)]
    else if s.value < 0 then [Negative(s.name, s.value)]
    else [TooLarge(s.name, s.value)]
  }

  /** The first of the leading `k` enumerators with the pattern `key`, or `k`. */
  function FirstWith(slots: seq<Slot>, k: nat, key: int): (j: nat)
    requires k <= |slots|
    ensures j <= k
  {
    if k == 0 then 0
    else if FirstWith(slots, k - 1, key) < k - 1 then FirstWith(slots, k - 1, key)
    else if slots[k - 1].key == key then k - 1
    else k
  }

  lemma {:induction false} FirstWithIsFirst(slots: seq<Slot>, k: nat, key: int)
    requires k <= |slots|
    ensures var j := FirstWith(slots, k, key);
      (j < k ==> slots[j].key == key) && forall i: nat :: i < j ==> slots[i].key != key
  {
    if k > 0 {
      FirstWithIsFirst(slots, k - 1, key);
    }
  }

  function SameReports(slots: seq<Slot>, k: nat): seq<Report>
    requires k < |slots|
  {
    var j := FirstWith(slots, k, slots[k].key);
    if j < k then [SameValue(slots[k].name, slots[j].name, slots[k].key)] else []
  }

  function SlotReports(width: nat, signed: bool, slots: seq<Slot>, k: nat): seq<Report>
    requires width > 0 && k < |slots|
  {
    RangeReports(width, signed, slots[k]) + SameReports(slots, k)
  }

  function PerSlot(width: nat, signed: bool, slots: seq<Slot>): seq<seq<Report>>
    requires width > 0
  {
    seq(|slots|, k requires 0 <= k < |slots| => SlotReports(width, signed, slots, k))
  }

  /** The reports about the enumerators, in order. */
  function Reports(width: nat, signed: bool, slots: seq<Slot>): seq<Report>
    requires width > 0
  {
    Flat(PerSlot(width, signed, slots))
  }

  function Flat<T>(parts: seq<seq<T>>): seq<T> {
    if parts == [] then [] else Flat(parts[..|parts| - 1]) + parts[|parts| - 1]
  }

  lemma FlatAppend<T>(parts: seq<seq<T>>, part: seq<T>)
    ensures Flat(parts + [part]) == Flat(parts) + part
  {
    assert (parts + [part])[..|parts|] == parts;
  }

  lemma {:induction false} FlatHas<T>(parts: seq<seq<T>>, x: T)
    ensures x in Flat(parts) <==> exists k :: 0 <= k < |parts| && x in parts[k]
  {
    if parts != [] {
      FlatHas(parts[..|parts| - 1], x);
    }
  }

  lemma {:induction false} FlatEmpty<T>(parts: seq<seq<T>>)
    ensures Flat(parts) == [] <==> forall k :: 0 <= k < |parts| ==> parts[k] == []
  {
    if parts != [] {
      FlatEmpty(parts[..|parts| - 1]);
      assert |Flat(parts)| == |Flat(parts[..|parts| - 1])| + |parts[|parts| - 1]|;
    }
  }

  function StopReports(stop: Stop): seq<Report> {
    if stop.Saying? then [stop.report] else []
  }

  lemma {:induction false} FirstWithPrefix(slots: seq<Slot>, more: seq<Slot>, k: nat, key: int)
    requires k <= |slots|
    ensures FirstWith(slots + more, k, key) == FirstWith(slots, k, key)
  {
    if k > 0 {
      FirstWithPrefix(slots, more, k - 1, key);
    }
  }

  lemma SlotReportsPrefix(width: nat, signed: bool, slots: seq<Slot>, more: seq<Slot>, k: nat)
    requires width > 0 && k < |slots|
    ensures SlotReports(width, signed, slots + more, k) == SlotReports(width, signed, slots, k)
  {
    var key := slots[k].key;
    FirstWithPrefix(slots, more, k, key);
    FirstWithIsFirst(slots, k, key);
  }

  lemma ReportsAppend(width: nat, signed: bool, slots: seq<Slot>, s: Slot)
    requires width > 0
    ensures Reports(width, signed, slots + [s])
         == Reports(width, signed, slots) + SlotReports(width, signed, slots + [s], |slots|)
  {
    var last := SlotReports(width, signed, slots + [s], |slots|);
    forall k: nat | k < |slots|
      ensures SlotReports(width, signed, slots + [s], k) == SlotReports(width, signed, slots, k)
    {
      SlotReportsPrefix(width, signed, slots, [s], k);
    }
    assert PerSlot(width, signed, slots + [s]) == PerSlot(width, signed, slots) + [last];
    FlatAppend(PerSlot(width, signed, slots), last);
  }

  /** `seen` names, for each pattern of `slots`, the first enumerator that has it. */
  ghost predicate Seen(slots: seq<Slot>, seen: map<int, string>) {
    forall key :: SeenAt(slots, seen, key)
  }

  ghost predicate SeenAt(slots: seq<Slot>, seen: map<int, string>, key: int) {
    var j := FirstWith(slots, |slots|, key);
    if j < |slots| then key in seen && seen[key] == slots[j].name else key !in seen
  }

  /** One enumerator: its reports, and `seen` afterwards. */
  method CheckSlot(width: nat, signed: bool, ghost slots: seq<Slot>, s: Slot, seen0: map<int, string>)
    returns (reports: seq<Report>, seen: map<int, string>)
    requires 0 < width <= 64 && Seen(slots, seen0) && s.key == Pattern(width, s.value)
    ensures reports == SlotReports(width, signed, slots + [s], |slots|)
    ensures Seen(slots + [s], seen)
  {
    reports, seen := [], seen0;
    var min, max := if signed then 0 - Pow2(width - 1) else 0, if signed then Pow2(width - 1) - 1 else Pow2(width) - 1;
    if !s.sizedFits && (s.value > max || s.value < min) {
      if s.explicit {
        reports := [if s.value < 0 then Negative(s.name, s.value) else TooLarge(s.name, s.value)];
      } else {
        reports := [Overflowed(s.name, s.value)];
      }
    }
    var key := s.value % Pow2(width);
    FirstWithPrefix(slots, [s], |slots|, key);
    FirstWithIsFirst(slots, |slots|, key);
    assert SeenAt(slots, seen0, key);
    if key in seen0 {
      reports := reports + [SameValue(s.name, seen0[key], key)];
    } else {
      seen := seen0[key := s.name];
    }
    forall k ensures SeenAt(slots + [s], seen, k) {
      FirstWithPrefix(slots, [s], |slots|, k);
      assert SeenAt(slots, seen0, k);
    }
  }

  /** The enumerators of one member. */
  method CheckMember(width: nat, signed: bool, ghost slots: seq<Slot>, m: Member, first: int, count: nat,
                     reports0: seq<Report>, seen0: map<int, string>)
    returns (reports: seq<Report>, seen: map<int, string>)
    requires 0 < width <= 64 && Seen(slots, seen0) && reports0 == Reports(width, signed, slots)
    ensures var all := slots + SlotsOf(width, m, first, count);
      Seen(all, seen) && reports == Reports(width, signed, all)
  {
    hide SlotReports, Seen;
    reports, seen := reports0, seen0;
    ghost var all := slots;
    assert slots + [] == slots;
    for s := 0 to count
      invariant all == slots + SlotsOf(width, m, first, s)
      invariant Seen(all, seen) && reports == Reports(width, signed, all)
    {
      var slot := SlotOf(width, m, first, s);
      var found: seq<Report>;
      found, seen := CheckSlot(width, signed, all, slot, seen);
      ReportsAppend(width, signed, all, slot);
      assert all + [slot] == slots + SlotsOf(width, m, first, s + 1);
      all, reports := all + [slot], reports + found;
    }
  }

  /** The whole check. `finished` says that tracking reached the end of the enum. */
  method CheckEnumValues(width: nat, signed: bool, ms: seq<Member>) returns (reports: seq<Report>, finished: bool)
    ensures width == 0 || width > 64 ==> reports == [] && !finished
    ensures 0 < width <= 64 ==>
      var t := Track(width, ms, |ms|);
      finished == t.stop.Going? && reports == Reports(width, signed, t.slots) + StopReports(t.stop)
      && (finished ==> (reports == [] <==> AllGood(width, signed, t.slots)))
      && (finished <==> forall i :: 0 <= i < |ms| ==> Trackable(ms[i])) && (finished ==> Numbered(width, ms, t.slots, |ms|))
  {
    reports := [];
    if width == 0 || width > 64 {
      return [], false;
    }
    var next, seen: map<int, string> := 0, map[];
    ghost var slots: seq<Slot> := [];
    assert Seen(slots, seen);
    hide SlotsOf, Seen, SlotReports;
    for i := 0 to |ms|
      invariant Track(width, ms, i) == Tracked(slots, next, Going)
      invariant reports == Reports(width, signed, slots) && Seen(slots, seen)
    {
      var m := ms[i];
      assert Track(width, ms, i + 1) == TrackMember(width, Tracked(slots, next, Going), m);
      var count := Count(m);
      if count.Unknown? {
        StopsAt(width, ms, i + 1);
        TrackEnds(width, ms);
        return reports + StopReports(count.why), false;
      }
      var first := Start(m, next);
      if first.Unknown? {
        StopsAt(width, ms, i + 1);
        TrackEnds(width, ms);
        return reports + StopReports(first.why), false;
      }
      reports, seen := CheckMember(width, signed, slots, m, first.value, count.value, reports, seen);
      slots := slots + SlotsOf(width, m, first.value, count.value);
      next := first.value + count.value;
    }
    CleanIffGood(width, signed, ms);
    TrackEnds(width, ms);
    TrackNumbers(width, ms, |ms|);
    return reports, true;
  }

  lemma {:induction false} StopsAt(width: nat, ms: seq<Member>, k: nat)
    requires k <= |ms| && !Track(width, ms, k).stop.Going?
    ensures Track(width, ms, |ms|) == Track(width, ms, k)
    decreases |ms| - k
  {
    if k < |ms| {
      StopsAt(width, ms, k + 1);
    }
  }

  // ---------------------------------------------------------------- what the reports mean

  /** Every enumerator fits the base type, or is a sized literal that fits it bit for bit; and
      no two have the same bit pattern. */
  ghost predicate Lawful(width: nat, signed: bool, slots: seq<Slot>)
    requires width > 0
  {
    (forall i: nat :: i < |slots| ==> slots[i].sizedFits || Fits(width, signed, slots[i].value))
    && forall i: nat :: i < |slots| ==> NewPattern(slots, i)
  }

  ghost predicate NewPattern(slots: seq<Slot>, i: nat)
    requires i < |slots|
  {
    forall j: nat :: j < i ==> slots[j].key != slots[i].key
  }

  lemma SlotSilent(width: nat, signed: bool, slots: seq<Slot>, i: nat)
    requires width > 0 && i < |slots|
    ensures SlotReports(width, signed, slots, i) == [] <==>
      (slots[i].sizedFits || Fits(width, signed, slots[i].value)) && NewPattern(slots, i)
  {
    FirstWithIsFirst(slots, i, slots[i].key);
  }

  /** Nothing is reported about the enumerators exactly when they are lawful. */
  lemma SilentIffLawful(width: nat, signed: bool, slots: seq<Slot>)
    requires width > 0
    ensures Reports(width, signed, slots) == [] <==> Lawful(width, signed, slots)
  {
    var parts := PerSlot(width, signed, slots);
    FlatEmpty(parts);
    forall i: nat | i < |slots|
      ensures parts[i] == [] <==> (slots[i].sizedFits || Fits(width, signed, slots[i].value)) && NewPattern(slots, i)
    {
      SlotSilent(width, signed, slots, i);
    }
  }

  /** Two values of the base type's range with the same bit pattern are the same integer. */
  lemma SamePatternSameValue(width: nat, signed: bool, v: int, u: int)
    requires width > 0 && Fits(width, signed, v) && Fits(width, signed, u)
    ensures Pattern(width, v) == Pattern(width, u) <==> v == u
  {
    var p := Pow2(width);
    if Pattern(width, v) == Pattern(width, u) {
      var a, b := v / p, u / p;
      assert v == p * a + v % p && u == p * b + u % p;
      assert p * (a - b) == v - u;
      NearZero(p, a - b);
    }
  }

  ghost predicate Patterned(width: nat, slots: seq<Slot>) {
    forall i: nat :: i < |slots| ==> slots[i].key == Pattern(width, slots[i].value)
  }

  ghost predicate Clash(width: nat, signed: bool, slots: seq<Slot>, i: nat, j: nat, r: Report)
    requires width > 0 && i < |slots| && j < |slots| && r.SameValue?
  {
    slots[j].name == r.name && slots[i].name == r.other
    && slots[i].key == slots[j].key == r.key
    && (Fits(width, signed, slots[i].value) && Fits(width, signed, slots[j].value) ==> slots[i].value == slots[j].value)
  }

  /** Every report of equal values names two enumerators with one bit pattern, the earlier one
      the first that has it; if both fit the base type they are the same integer. */
  lemma SameReportIsTrue(width: nat, signed: bool, slots: seq<Slot>, r: Report)
    requires width > 0 && r in Reports(width, signed, slots) && r.SameValue?
    requires Patterned(width, slots)
    ensures exists i: nat, j: nat :: i < j < |slots| && Clash(width, signed, slots, i, j, r)
  {
    FlatHas(PerSlot(width, signed, slots), r);
    var j: nat :| j < |slots| && r in SlotReports(width, signed, slots, j);
    FirstWithIsFirst(slots, j, slots[j].key);
    var i := FirstWith(slots, j, slots[j].key);
    if Fits(width, signed, slots[i].value) && Fits(width, signed, slots[j].value) {
      SamePatternSameValue(width, signed, slots[i].value, slots[j].value);
    }
    assert Clash(width, signed, slots, i, j, r);
  }

  /** The enumerators of an enum carry the bit patterns of their values. */
  lemma {:induction false} TrackPatterns(width: nat, ms: seq<Member>, k: nat)
    requires k <= |ms|
    ensures Patterned(width, Track(width, ms, k).slots)
  {
    if k > 0 {
      TrackPatterns(width, ms, k - 1);
      var t, m := Track(width, ms, k - 1), ms[k - 1];
      if t.stop.Going? && Count(m).Known? && Start(m, t.next).Known? {
        var first, count := Start(m, t.next).value, Count(m).value;
        MemberSlots(width, m, first, count);
        assert Track(width, ms, k).slots == t.slots + SlotsOf(width, m, first, count);
      }
    }
  }

  /** The enumerators of one member have consecutive values. */
  lemma {:induction false} MemberSlots(width: nat, m: Member, first: int, count: nat)
    ensures |SlotsOf(width, m, first, count)| == count
    ensures forall s: nat :: s < count ==> SlotsOf(width, m, first, count)[s] == SlotOf(width, m, first, s)
  {
    if count > 0 {
      MemberSlots(width, m, first, count - 1);
    }
  }

  /** Every value fits the base type, or is a sized literal that does, and the values have
      pairwise distinct bit patterns. */
  ghost predicate AllGood(width: nat, signed: bool, slots: seq<Slot>)
    requires width > 0
  {
    (forall i: nat :: i < |slots| ==> slots[i].sizedFits || Fits(width, signed, slots[i].value))
    && forall i: nat, j: nat :: i < j < |slots| ==> Pattern(width, slots[i].value) != Pattern(width, slots[j].value)
  }

  /** An enum's enumerators are reported on exactly when they are not all good. */
  lemma CleanIffGood(width: nat, signed: bool, ms: seq<Member>)
    requires width > 0
    ensures var slots := Track(width, ms, |ms|).slots;
      Reports(width, signed, slots) == [] <==> AllGood(width, signed, slots)
  {
    var slots := Track(width, ms, |ms|).slots;
    TrackPatterns(width, ms, |ms|);
    SilentIffLawful(width, signed, slots);
    hide Track, Reports, Pattern, Fits;
    assert forall i: nat, j: nat :: j < i < |slots| && NewPattern(slots, i) ==> slots[j].key != slots[i].key;
    if AllGood(width, signed, slots) {
      forall i: nat | i < |slots| ensures NewPattern(slots, i) {
        forall j: nat | j < i ensures slots[j].key != slots[i].key {
          assert Pattern(width, slots[j].value) != Pattern(width, slots[i].value);
        }
      }
    }
  }

  // ---------------------------------------------------------------- which values an enum's names have

  /** The bounds of the name sequence are defined numbers from 0 up, and an initializer is a
      constant. */
  predicate Trackable(m: Member) {
    && (m.range.Some? ==>
          var b := m.range.value;
          !b.undefined && b.lo.Some? && b.hi.Some? && b.lo.value >= 0 && b.hi.value >= 0)
    && (m.init.Some? ==> m.init.value.folded.Value?)
  }

  /** How many names the member stands for: one, or those from one bound to the other. */
  function NamesOf(m: Member): (n: nat)
    requires Trackable(m)
    ensures n > 0
  {
    if m.range.None? then 1 else
      var lo, hi := m.range.value.lo.value, m.range.value.hi.value;
      if lo <= hi then hi - lo + 1 else lo - hi + 1
  }

  /** The number of names in front of member `k`. */
  function Offset(ms: seq<Member>, k: nat): nat
    requires k <= |ms| && forall i :: 0 <= i < k ==> Trackable(ms[i])
  {
    if k == 0 then 0 else Offset(ms, k - 1) + NamesOf(ms[k - 1])
  }

  /** Name number `s` of member `i`: under the member's name, with its initializer's value or one
      more than the name before it; the first of all is 0. */
  ghost predicate NamedRight(width: nat, ms: seq<Member>, slots: seq<Slot>, i: nat, s: nat)
    requires i < |ms| && forall j :: 0 <= j <= i ==> Trackable(ms[j])
  {
    var p, m := Offset(ms, i) + s, ms[i];
    var initialized := s == 0 && m.init.Some?;
    && p < |slots| && slots[p].name == m.name
    && (if initialized then m.init.value.folded == Value(slots[p].value)
        else slots[p].value == if p == 0 then 0 else slots[p - 1].value + 1)
    && (slots[p].explicit <==> initialized)
    && (slots[p].sizedFits <==> initialized && m.init.value.literalSize.Some? && m.init.value.literalSize.value <= width)
  }

  /** The enumerators are the names of the first `k` members, in order, and no others. */
  ghost predicate Numbered(width: nat, ms: seq<Member>, slots: seq<Slot>, k: nat)
    requires k <= |ms| && forall i :: 0 <= i < k ==> Trackable(ms[i])
  {
    |slots| == Offset(ms, k) && forall i: nat, s: nat :: i < k && s < NamesOf(ms[i]) ==> NamedRight(width, ms, slots, i, s)
  }

  lemma {:induction false} OffsetGrows(ms: seq<Member>, i: nat, k: nat)
    requires i < k <= |ms| && forall j :: 0 <= j < k ==> Trackable(ms[j])
    ensures Offset(ms, i) + NamesOf(ms[i]) <= Offset(ms, k)
  {
    if i < k - 1 {
      OffsetGrows(ms, i, k - 1);
    }
  }

  /** Adding the last member's names leaves the others as they are. */
  lemma NumberedMore(width: nat, ms: seq<Member>, was: seq<Slot>, now: seq<Slot>, i: nat, k: nat, s: nat)
    requires i < k <= |ms| && (forall j :: 0 <= j < k ==> Trackable(ms[j]))
    requires Numbered(width, ms, was, k) && s < NamesOf(ms[i]) && |was| <= |now| && now[..|was|] == was
    ensures NamedRight(width, ms, now, i, s)
  {
    OffsetGrows(ms, i, k);
    assert NamedRight(width, ms, was, i, s);
    var p := Offset(ms, i) + s;
    assert now[p] == was[p];
    if p > 0 { assert now[p - 1] == was[p - 1]; }
  }

  /** While every member is trackable, tracking goes on and numbers their names. */
  lemma {:induction false} TrackNumbers(width: nat, ms: seq<Member>, k: nat)
    requires k <= |ms| && forall i :: 0 <= i < k ==> Trackable(ms[i])
    ensures var t := Track(width, ms, k);
      t.stop.Going? && Numbered(width, ms, t.slots, k)
      && t.next == if t.slots == [] then 0 else t.slots[|t.slots| - 1].value + 1
  {
    if k > 0 {
      TrackNumbers(width, ms, k - 1);
      var t, m := Track(width, ms, k - 1), ms[k - 1];
      var first, count := Start(m, t.next).value, NamesOf(m);
      assert Count(m) == Known(count);
      var now := Track(width, ms, k);
      assert now.slots == t.slots + SlotsOf(width, m, first, count);
      MemberSlots(width, m, first, count);
      forall i: nat, s: nat | i < k && s < NamesOf(ms[i]) ensures NamedRight(width, ms, now.slots, i, s) {
        if i < k - 1 {
          NumberedMore(width, ms, t.slots, now.slots, i, k - 1, s);
        } else {
          LastNamed(width, ms, t.slots, now.slots, k - 1, first, s);
        }
      }
      assert now.slots[|now.slots| - 1] == SlotOf(width, m, first, count - 1);
    }
  }

  lemma LastNamed(width: nat, ms: seq<Member>, was: seq<Slot>, now: seq<Slot>, i: nat, first: int, s: nat)
    requires i < |ms| && (forall j :: 0 <= j <= i ==> Trackable(ms[j])) && |was| == Offset(ms, i) && s < NamesOf(ms[i])
    requires now == was + SlotsOf(width, ms[i], first, NamesOf(ms[i]))
    requires Start(ms[i], if was == [] then 0 else was[|was| - 1].value + 1) == Known(first)
    ensures NamedRight(width, ms, now, i, s)
  {
    var m, p := ms[i], |was| + s;
    MemberSlots(width, m, first, NamesOf(m));
    hide SlotsOf;
    assert now[p] == SlotOf(width, m, first, s);
    if s > 0 {
      assert now[p - 1] == SlotOf(width, m, first, s - 1);
    } else if p > 0 {
      assert now[p - 1] == was[p - 1];
    }
  }

  /** What ends the tracking at a member that is not trackable: the first of its faults. */
  function Fault(m: Member): (stop: Stop)
    requires !Trackable(m)
  {
    if m.range.Some? && m.range.value.undefined then Saying(UndefinedBound(m.name))
    else if m.range.Some? && (m.range.value.lo.None? || m.range.value.hi.None?) then Silent
    else if m.range.Some? && (m.range.value.lo.value < 0 || m.range.value.hi.value < 0) then Saying(NegativeBound(m.name))
    else if m.init.value.folded == NotConstant(true) then Saying(NotAConstant(m.name))
    else Silent
  }

  /** Tracking reaches the end exactly when every member is trackable; otherwise it stops at the
      first that is not, with the names of the members before it. */
  lemma TrackEnds(width: nat, ms: seq<Member>)
    ensures Track(width, ms, |ms|).stop.Going? <==> forall i :: 0 <= i < |ms| ==> Trackable(ms[i])
    ensures forall k: nat :: k < |ms| && !Trackable(ms[k]) && (forall i :: 0 <= i < k ==> Trackable(ms[i])) ==>
      Track(width, ms, |ms|) == Track(width, ms, k).(stop := Fault(ms[k]))
  {
    forall k: nat | k < |ms| && !Trackable(ms[k]) && (forall i :: 0 <= i < k ==> Trackable(ms[i]))
      ensures Track(width, ms, |ms|) == Track(width, ms, k).(stop := Fault(ms[k])) && !Fault(ms[k]).Going?
    {
      TrackNumbers(width, ms, k);
      assert Track(width, ms, k + 1) == Track(width, ms, k).(stop := Fault(ms[k]));
      StopsAt(width, ms, k + 1);
    }
    if forall i :: 0 <= i < |ms| ==> Trackable(ms[i]) {
      TrackNumbers(width, ms, |ms|);
    } else {
      var k := FirstFault(ms, |ms|);
    }
  }

  lemma {:induction false} FirstFault(ms: seq<Member>, n: nat) returns (k: nat)
    requires n <= |ms| && exists i :: 0 <= i < n && !Trackable(ms[i])
    ensures k < n && !Trackable(ms[k]) && forall i :: 0 <= i < k ==> Trackable(ms[i])
  {
    if exists i :: 0 <= i < n - 1 && !Trackable(ms[i]) {
      k := FirstFault(ms, n - 1);
    } else {
      k := n - 1;
    }
  }

  // ---------------------------------------------------------------- widths and kinds of report

  /** The pattern of a value is the number of `width` bits that it equals modulo 2^width. */
  lemma PatternMeans(width: nat, v: int)
    ensures 0 <= Pattern(width, v) < Pow2(width) && (v - Pattern(width, v)) % Pow2(width) == 0
  {
    var p := Pow2(width);
    assert v == p * (v / p) + v % p;
    MultipleOf(p, v / p);
  }

  lemma MultipleOf(p: nat, q: int)
    requires p > 0
    ensures (p * q) % p == 0
  {
    assert p * q == q * p;
    var r := (p * q) % p;
    assert p * q == p * ((p * q) / p) + r;
    NearZero(p, q - (p * q) / p);
  }

  /** An unsigned base of `width` bits holds 0 to 2^width - 1, a signed one as many values, half
      of them negative. */
  lemma FitsMeans(width: nat, signed: bool, v: int)
    requires width > 0
    ensures Fits(width, signed, v) <==> 0 <= (if signed then v + Pow2(width - 1) else v) < Pow2(width)
  {
    assert Pow2(width) == 2 * Pow2(width - 1);
  }

  /** `r` reports enumerator `s`, which is out of range: as inferred if no initializer gives its
      value, otherwise as negative or too large. */
  ghost predicate OutOfRange(width: nat, signed: bool, s: Slot, r: Report)
    requires width > 0 && (r.Overflowed? || r.Negative? || r.TooLarge?)
  {
    && !s.sizedFits && !Fits(width, signed, s.value) && r.name == s.name && r.value == s.value
    && (r.Overflowed? <==> !s.explicit) && (r.Negative? ==> r.value < 0) && (r.TooLarge? ==> r.value >= 0)
  }

  /** Reports of that kind are made exactly for the enumerators out of range. */
  lemma RangeReportMeans(width: nat, signed: bool, slots: seq<Slot>, r: Report)
    requires width > 0 && (r.Overflowed? || r.Negative? || r.TooLarge?)
    ensures r in Reports(width, signed, slots) <==>
      exists k :: 0 <= k < |slots| && OutOfRange(width, signed, slots[k], r)
  {
    var parts := PerSlot(width, signed, slots);
    FlatHas(parts, r);
    hide Flat, Fits;
    forall k | 0 <= k < |slots| ensures r in parts[k] <==> OutOfRange(width, signed, slots[k], r) {
    }
  }
}
