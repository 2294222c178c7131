/** What the rewriting keeps of the text's layout: its lines, and the ends of `define lines. */
module DelayLayout {
  import opened Results
  import opened Texts
  import opened Lexing
  import opened IntraDelay
  import DelayTwice

  // ----------------------------------------------------------------------- lines

  function Lines(t: Text): nat {
    if t.End? then 0 else (if t.head == '\n' then 1 else 0) + Lines(t.tail)
  }

  lemma {:induction false} LinesThen(a: Text, b: Text)
    ensures Lines(a.Then(b)) == Lines(a) + Lines(b)
  {
    if a.Ch? { LinesThen(a.tail, b); }
  }

  lemma {:induction false} LinesFrom(s: string, i: nat)
    requires i <= |s| && '\n' !in s
    ensures Lines(From(s, i)) == 0
    decreases |s| - i
  {
    if i < |s| { LinesFrom(s, i + 1); }
  }

  function Join(ps: Pieces, qs: Pieces): Pieces {
    if ps.Nil? then qs else Cons(ps.piece, Join(ps.rest, qs))
  }

  /** The lines of an event control that its arguments do not repeat. */
  function LostIn(p: Piece): int {
    if p.Event? then Lines(p.control) - Lines(p.count.Then(Ch(p.edge, p.sig))) else 0
  }

  function Lost(ps: Pieces): int {
    if ps.Nil? then 0 else LostIn(ps.piece) + Lost(ps.rest)
  }

  lemma PieceLines(p: Piece, a: Text, b: Text)
    ensures Lines(Source(p, a)) - Lines(a) == Lines(Show(p, b)) - Lines(b) + LostIn(p)
  {
    if !p.Copy? {
      LinesThen(Of(Marker(p)), Ch('(', Args(p, Ch(')', b))));
      LinesFrom(Marker(p), 0);
      LinesThen(p.rhs, a);
      LinesThen(p.rhs, Ch(')', b));
      if p.Event? {
        EventLines(p, a, Ch(')', b));
      } else {
        LinesThen(p.ctl, p.rhs.Then(a));
        LinesThen(p.ctl, Ch(',', p.rhs.Then(Ch(')', b))));
      }
    }
  }

  lemma EventLines(p: Piece, a: Text, b: Text)
    requires p.Event?
    ensures Lines(Source(p, a)) == Lines(p.control) + Lines(p.rhs.Then(a))
    ensures Lines(Args(p, b)) == Lines(p.count.Then(Ch(p.edge, p.sig))) + Lines(p.rhs.Then(b))
  {
    LinesThen(p.control, p.rhs.Then(a));
    var y := Ch(',', p.rhs.Then(b));
    var z := Ch(',', p.sig.Then(y));
    LinesThen(p.sig, y);
    assert Lines(z) == Lines(p.sig) + Lines(p.rhs.Then(b));
    LinesThen(p.count, Ch(',', Ch(p.edge, z)));
    LinesThen(p.count, Ch(p.edge, p.sig));
    assert Args(p, b) == p.count.Then(Ch(',', Ch(p.edge, z)));
  }

  lemma {:induction false} LinesOf(ps: Pieces)
    ensures Lines(Original(ps)) == Lines(Render(ps)) + Lost(ps)
  {
    if ps.Cons? {
      LinesOf(ps.rest);
      PieceLines(ps.piece, Original(ps.rest), Render(ps.rest));
    }
  }

  lemma {:induction false} SigLines(t: Text)
    requires SigChars(t)
    ensures Lines(t) == 0
  {
    if t.Ch? {
      SigLines(t.tail);
    }
  }

  lemma {:induction false} LinesTake(t: Text, a: nat, b: nat)
    requires a <= b
    ensures Lines(t.Take(a)) <= Lines(t.Take(b))
  {
    if a > 0 && t.Ch? {
      LinesTake(t.tail, a - 1, b - 1);
    }
  }

  lemma {:induction false} LinesInner(t: Text, a: nat, n: nat)
    ensures Lines(t.Drop(a).Take(n)) <= Lines(t.Take(a + n))
  {
    if a > 0 && t.Ch? {
      LinesInner(t.tail, a - 1, n);
    }
  }

  lemma {:induction false} LinesTrimStart(t: Text)
    ensures Lines(TrimStart(t)) <= Lines(t)
  {
    if t.Ch? {
      LinesTrimStart(t.tail);
    }
  }

  lemma {:induction false} LinesTrimEnd(t: Text)
    ensures Lines(TrimEnd(t)) <= Lines(t)
  {
    if t.Ch? {
      LinesTrimEnd(t.tail);
    }
  }

  /** The count of a repeat control is a trimmed stretch of the text before the `@`. */
  lemma CountPlace(t: Text) returns (a: nat, n: nat)
    requires RepeatAt(t).Some?
    ensures RepeatAt(t).value.0 == Trim(t.Drop(a).Take(n)) && a + n <= RepeatAt(t).value.1
  {
    hide AtOffset, Trim;
    var u := t.Drop(6);
    var j := TriviaEnd(u, Code);
    var v := u.Drop(j);
    var k := ParenEnd(v.tail, 1).value;
    a, n := 6 + j + 1, k - 1;
    hide TriviaEnd, ParenEnd;
    DropMore(t, 6, j);
    DropMore(t, 6 + j, 1);
    assert v.Drop(1) == v.tail.Drop(0) == v.tail;
  }

  lemma CountLines(t: Text, n: nat)
    requires RepeatAt(t).Some? && RepeatAt(t).value.1 <= n
    ensures Lines(RepeatAt(t).value.0) <= Lines(t.Take(n))
  {
    hide RepeatAt;
    var a, k := CountPlace(t);
    var x := t.Drop(a).Take(k);
    LinesTrimStart(x);
    LinesTrimEnd(TrimStart(x));
    LinesInner(t, a, k);
    LinesTake(t, a + k, n);
  }

  /** Only a repeat count keeps newlines of its control. */
  lemma EventLosses(t: Text, r: Recent, inDef: bool)
    requires FindSite(t, r, inDef).Some? && FindSite(t, r, inDef).value.piece.Event?
    ensures var p := FindSite(t, r, inDef).value.piece;
      LostIn(p) == Lines(p.control) - Lines(p.count) && LostIn(p) >= 0
  {
    hide EventControlAt, RepeatAt, RhsEnd, Broken, DelayAt;
    var p := FindSite(t, r, inDef).value.piece;
    var (count, at) := EventStart(t).value;
    var e := EventControlAt(t.Drop(at + 1)).value;
    assert p.control == t.Take(at + 1 + e.ctl) && p.count == count && p.edge == e.edge && p.sig == e.sig;
    CountKept(t, at + 1 + e.ctl);
    hide FindSite, EventStart;
    DelayTwice.EventSig(t.Drop(at + 1));
    DelayTwice.EventEdge(t.Drop(at + 1));
    SigLines(e.sig);
    LinesThen(count, Ch(e.edge, e.sig));
  }

  lemma CountKept(t: Text, n: nat)
    requires EventStart(t).Some? && EventStart(t).value.1 <= n
    ensures Lines(EventStart(t).value.0) <= Lines(t.Take(n))
  {
    hide RepeatAt;
    if t.head == '@' {
      LinesFrom("1", 0);
    } else {
      CountLines(t, n);
    }
  }

  /** Every event control among the pieces loses the newlines that its count does not repeat. */
  predicate Lossy(ps: Pieces) {
    ps.Nil? ||
    ((ps.piece.Event? ==> LostIn(ps.piece) == Lines(ps.piece.control) - Lines(ps.piece.count) && LostIn(ps.piece) >= 0)
     && Lossy(ps.rest))
  }

  lemma {:induction false} ScanLossy(t: Text, s: State)
    ensures Lossy(Scan(t, s))
    decreases t.Size()
  {
    if t.Ch? {
      match SiteAt(t, s)
      case Some(site) =>
        SiteAdvances(t, s.recent, DefNow(s, t));
        DropShrinks(t, site.semi);
        if site.piece.Event? {
          EventLosses(t, s.recent, DefNow(s, t));
        }
        ScanLossy(t.Drop(site.semi), AtSemi(s, t));
      case None =>
        ScanLossy(t.tail, After(s, t));
    }
  }

  /** The newlines of every event control among the pieces are those of its trimmed count. */
  predicate KeepsLines(ps: Pieces) {
    ps.Nil? || ((ps.piece.Event? ==> Lines(ps.piece.control) == Lines(ps.piece.count)) && KeepsLines(ps.rest))
  }

  lemma {:induction false} LostIff(before: Pieces, after: Pieces)
    requires Lossy(Join(before, after))
    ensures Lost(before) >= 0 && (Lost(before) == 0 <==> KeepsLines(before))
  {
    if before.Cons? {
      LostIff(before.rest, after);
    }
  }

  /** Up to every point between two pieces, the rewritten text has the lines of the source less
      those lost in event controls. None is added, and none is lost exactly when every event
      control before has its newlines in its count. */
  lemma LineNumbersKept(t: Text, before: Pieces, after: Pieces)
    requires Scan(t, START) == Join(before, after)
    ensures Lines(Original(before)) == Lines(Render(before)) + Lost(before)
    ensures Lost(before) >= 0 && (Lost(before) == 0 <==> KeepsLines(before))
    ensures Original(before).Then(Original(after)) == t && Render(before).Then(Render(after)) == Rewritten(t)
  {
    LinesOf(before);
    ScanLossy(t, START);
    LostIff(before, after);
    PiecesAreSource(t, START);
    OriginalJoin(before, after);
    RenderJoin(before, after);
  }

  lemma {:induction false} OriginalJoin(ps: Pieces, qs: Pieces)
    ensures Original(Join(ps, qs)) == Original(ps).Then(Original(qs))
  {
    if ps.Cons? {
      OriginalJoin(ps.rest, qs);
      SourceThen(ps.piece, Original(ps.rest), Original(qs));
    }
  }

  lemma {:induction false} RenderJoin(ps: Pieces, qs: Pieces)
    ensures Render(Join(ps, qs)) == Render(ps).Then(Render(qs))
  {
    if ps.Cons? {
      RenderJoin(ps.rest, qs);
      ShowMore(ps.piece, Render(ps.rest), Render(qs));
    }
  }

  lemma ShowMore(p: Piece, a: Text, b: Text)
    ensures Show(p, a).Then(b) == Show(p, a.Then(b))
  {
    if !p.Copy? {
      ThenAssoc(Of(Marker(p)), Ch('(', Args(p, Ch(')', a))), b);
      ArgsThen(p, Ch(')', a), b);
    }
  }

  // --------------------------------------------------------------- `define lines

  /** Every site that starts within the first `n` source characters ends before offset `n`. */
  predicate Confined(ps: Pieces, n: nat) {
    if n == 0 || ps.Nil? then true
    else
      var len := Source(ps.piece, End).Size();
      (ps.piece.Copy? || len < n) && Confined(ps.rest, if len <= n then n - len else 0)
  }

  lemma {:induction false} LineConfined(t: Text, s: State)
    requires s.inDef
    ensures Confined(Scan(t, s), LineEnd(t, s.esc))
    decreases t.Size()
  {
    if t.Ch? && !(t.head == '\n' && !s.esc) {
      match SiteAt(t, s)
      case None =>
        LineConfined(t.tail, After(s, t));
      case Some(site) =>
        SiteAdvances(t, s.recent, DefNow(s, t));
        DropShrinks(t, site.semi);
        SiteText(t, s);
        SiteLength(t, s);
        SiteInLine(t, s);
        LineConfined(t.Drop(site.semi), AtSemi(s, t));
    }
  }

  /** A site accepted inside a `define line ends before the line does. */
  lemma SiteInLine(t: Text, s: State)
    requires SiteAt(t, s).Some? && DefNow(s, t) && t.head != '\n'
    ensures LineEnd(t, s.esc) == SiteAt(t, s).value.semi + LineEnd(t.Drop(SiteAt(t, s).value.semi), false)
    ensures LineEnd(t.Drop(SiteAt(t, s).value.semi), false) > 0
  {
    var semi := SiteAt(t, s).value.semi;
    SiteText(t, s);
    Unescaped(t, s.esc);
    SiteUnbroken(t, s.recent);
    LineEndBroken(t, semi, false);
    LineEndFrom(t, semi, false);
    assert LineEnd(t.Drop(semi), false) == 1 + LineEnd(t.Drop(semi).tail, false);
  }

  lemma Unescaped(t: Text, esc: bool)
    requires t.Ch? && t.head != '\n'
    ensures LineEnd(t, esc) == LineEnd(t, false)
  {
  }

  /** Nothing that the pass rewrites inside a `define line crosses the end of the line. */
  lemma DefineConfined(t: Text, s: State)
    requires Plain(s.mode, t) && IsDefine(t)
    ensures Confined(Scan(t, s), LineEnd(t, s.esc))
  {
    var u := State(s.mode, s.recent, true, s.esc);
    LineConfined(t, u);
    assert Of("`define").Ch? && Of("`define").head == '`';
    assert DefNow(u, t) && DefNow(s, t) && After(u, t) == After(s, t);
  }

  // -------------------------------------------------------- sources without controls

  predicate Has(t: Text, c: char) {
    t.Ch? && (t.head == c || Has(t.tail, c))
  }

  lemma {:induction false} HasDrop(t: Text, n: nat, c: char)
    requires t.Drop(n).Ch? && t.Drop(n).head == c
    ensures Has(t, c)
  {
    if n > 0 && t.Ch? { HasDrop(t.tail, n - 1, c); }
  }

  lemma EventHasAt(t: Text)
    requires EventStart(t).Some?
    ensures Has(t, '@')
  {
    if !(t.Ch? && t.head == '@') {
      var u := t.Drop(6);
      var j := TriviaEnd(u, Code);
      var v := u.Drop(j);
      var k := ParenEnd(v.tail, 1).value;
      var w := v.tail.Drop(k);
      var a := TriviaEnd(w, Code);
      DropMore(v.tail, k, a);
      assert v.Drop(1 + (k + a)) == v.tail.Drop(k + a);
      DropMore(u, j, 1 + (k + a));
      DropMore(t, 6, j + (1 + (k + a)));
      HasDrop(t, 6 + (j + (1 + (k + a))), '@');
    }
  }

  /** A source with neither `#` nor `@` is left as it is, as the early return does. */
  lemma {:induction false} NothingToDo(t: Text, s: State)
    requires !Has(t, '#') && !Has(t, '@')
    ensures Render(Scan(t, s)) == t
  {
    if t.Ch? {
      if EventStart(t).Some? { EventHasAt(t); }
      NothingToDo(t.tail, After(s, t));
    }
  }
}
