/** Both halves of the condition under which the second pass is the identity: a tidy source whose
    call offers it a site, and an untidy one in whose arguments there is no `;`. */
module DelayLimits {
  import opened Results
  import opened Texts
  import opened Lexing
  import opened IntraDelay
  import opened DelayTwice
  import DelayLayout

  /** One more character is copied. */
  lemma StepOn(t: Text, s: State, m: nat)
    requires Copied(t, s, m) && t.Drop(m).Ch? && SiteAt(t.Drop(m), Through(t, s, m)).None?
    ensures Copied(t, s, m + 1) && Through(t, s, m + 1) == After(Through(t, s, m), t.Drop(m))
    ensures t.Drop(m + 1) == t.Drop(m).tail
  {
    OneStep(t.Drop(m), Through(t, s, m));
    CopiedMore(t, s, m, 1);
    DropMore(t, m, 1);
    assert t.Drop(m).Drop(1) == t.Drop(m).tail.Drop(0);
  }

  /** `=`, a marker call and the first `=` of its arguments are copied, so a control that
      follows is looked at. */
  lemma ReadsArguments(marker: Text, x: Text) returns (n: nat)
    requires AllWord(marker) && marker.Ch? && marker.head == '$'
    ensures var t := Ch('=', marker.Then(Ch('(', x)));
      Copied(t, START, n) && t.Drop(n) == x
      && Through(t, START, n).mode == Code && Through(t, START, n).recent.p1 == '('
  {
    var call := Ch('(', x);
    var t := Ch('=', marker.Then(call));
    UngatedNoSite(t, START);
    StepOn(t, START, 0);
    NoTrigger(t.tail, After(START, t));
    StepOn(t, START, 1);
    var s := Through(t, START, 2);
    assert t.Drop(2) == marker.tail.Then(call);
    AllWordCopied(marker.tail, call, s);
    ThenSplits(marker.tail, call);
    CopiedMore(t, START, 2, marker.tail.Size());
    n := 2 + marker.tail.Size();
    DropMore(t, 2, marker.tail.Size());
    UngatedNoSite(call, Through(t, START, n));
    StepOn(t, START, n);
    n := n + 1;
  }

  lemma FindNext(t: Text, depth: nat)
    requires t.Ch? && t.head != '/' && t.head != '"' && (depth == 0 ==> t.head != ';' && !Closes(t.head))
    ensures Find(t, Code, depth)
         == Plus(1, Find(t.tail, Code, if Opens(t.head) then depth + 1 else if Closes(t.head) then depth - 1 else depth))
  {
  }

  // `=#1(=#1-b;);`: the right-hand side has a `;` inside its parentheses.
  const INNER := Ch('#', Ch('1', Ch('-', Ch('b', Ch(';', Ch(')', Ch(';', End)))))))
  const BODY := Ch('(', Ch('=', INNER))
  const NESTED := Ch('=', Ch('#', Ch('1', BODY)))
  const NESTED_RHS := Ch('(', Ch('=', Ch('#', Ch('1', Ch('-', Ch('b', Ch(';', Ch(')', End))))))))

  const AFTER_ASSIGN := State(Code, Recent('=', ' ', ' '), false, false)

  lemma FindOn(t: Text, depth: nat, n: nat)
    requires t.Ch? && t.head != '/' && t.head != '"' && (depth == 0 ==> t.head != ';' && !Closes(t.head))
    requires Find(t.tail, Code, if Opens(t.head) then depth + 1 else if Closes(t.head) then depth - 1 else depth) == Some(n)
    ensures Find(t, Code, depth) == Some(n + 1)
  {
    FindNext(t, depth);
  }

  /** Inside a bracket, an ordinary character adds one. */
  lemma FindInside(c: char, t: Text, n: nat)
    requires c != '/' && c != '"' && !Opens(c) && !Closes(c) && Find(t, Code, 1) == Some(n)
    ensures Find(Ch(c, t), Code, 1) == Some(n + 1)
  {
    FindOn(Ch(c, t), 1, n);
  }

  lemma EndFound()
    ensures Find(Ch(')', Ch(';', End)), Code, 1) == Some(1)
  {
    var t := Ch(')', Ch(';', End));
    assert Find(t.tail, Code, 0) == Some(0);
    hide Find;
    FindOn(t, 1, 0);
  }

  lemma BodyFound()
    ensures Find(BODY, Code, 0) == Some(8)
  {
    hide Find;
    EndFound();
    FindInside(';', Ch(')', Ch(';', End)), 1);
    FindInside('b', INNER.tail.tail.tail.tail, 2);
    FindInside('-', INNER.tail.tail.tail, 3);
    FindInside('1', INNER.tail.tail, 4);
    FindInside('#', INNER.tail, 5);
    FindInside('=', INNER, 6);
    FindOn(BODY, 0, 7);
  }

  lemma BodyTaken()
    ensures BODY.Take(8) == NESTED_RHS && BODY.Drop(8) == Ch(';', End)
  {
    assert INNER.Take(6) == Ch('#', Ch('1', Ch('-', Ch('b', Ch(';', Ch(')', End))))));
    assert INNER.Drop(6) == Ch(';', End);
  }

  lemma NestedDelay()
    ensures DelayAt(Ch('1', BODY)) == Some(Extent(1, 8))
  {
    var u := Ch('1', BODY);
    assert TriviaEnd(u, Code) == 0 && WordEnd(u) == 1;
    assert u.Drop(0) == u && u.Drop(1) == BODY.Drop(0) == BODY;
    BodyFound();
    BodyTaken();
  }

  lemma NestedSite(t: Text, u: Text)
    requires t == NESTED.tail && u == t.tail
    ensures SiteAt(t, AFTER_ASSIGN) == Some(Site(Delay(Ch('1', End), NESTED_RHS), 10))
  {
    hide FindSite, DelayAt;
    NestedDelay();
    BodyTaken();
    NestedParts(u);
    HashSite(t, u, AFTER_ASSIGN);
  }

  lemma NestedParts(u: Text)
    requires u == Ch('1', BODY)
    ensures u.Take(1) == Ch('1', End) && u.Drop(1) == BODY
  {
    assert BODY.Take(0) == End && BODY.Drop(0) == BODY;
  }

  /** After `=`, a lone `#` starts a site if a delay and a right-hand side follow. */
  lemma HashSite(t: Text, u: Text, s: State)
    requires t == Ch('#', u) && u.Ch? && u.head != '#' && s.mode == Code && Gate(s.recent)
    ensures DelayAt(u).Some? && !Broken(t, 1 + DelayAt(u).value.ctl + DelayAt(u).value.rhs, false) ==>
      var e := DelayAt(u).value;
      SiteAt(t, s) == Some(Site(Delay(u.Take(e.ctl), u.Drop(e.ctl).Take(e.rhs)), 1 + e.ctl + e.rhs))
  {
    hide EventSite, RepeatAt, DelayAt;
    RepeatWord();
  }

  lemma NestedRewritten()
    ensures Rewritten(NESTED) == Ch('=', Of(DELAY_MARKER).Then(Ch('(', Ch('1', Ch(',', NESTED_RHS.Then(Ch(')', Ch(';', End))))))))
  {
    UngatedNoSite(NESTED, START);
    ImageCopy(NESTED, START);
    assert After(START, NESTED) == AFTER_ASSIGN;
    NestedSite(NESTED.tail, NESTED.tail.tail);
    ImageSite(NESTED.tail, AFTER_ASSIGN);
    var z := AtSemi(AFTER_ASSIGN, NESTED.tail);
    assert NESTED.tail.Drop(10) == Ch(';', End) by {
      DropMore(NESTED.tail, 2, 8);
      assert NESTED.tail.Drop(2) == BODY.Drop(0) == BODY;
      BodyTaken();
    }
    NoTrigger(Ch(';', End), z);
    ImageCopy(Ch(';', End), z);
    assert Image(End, After(z, Ch(';', End))) == End;
  }

  /** The pass looks at the `#` that follows `(=` in the copied right-hand side. */
  lemma LooksInside(t: Text, n: nat, y: Text)
    requires Copied(t, START, n) && t.Drop(n) == Ch('1', Ch(',', Ch('(', Ch('=', y))))
    requires Through(t, START, n).mode == Code && Through(t, START, n).recent.p1 == '('
    ensures Copied(t, START, n + 4) && t.Drop(n + 4) == y
    ensures Through(t, START, n + 4).mode == Code && Gate(Through(t, START, n + 4).recent)
  {
    UngatedNoSite(t.Drop(n), Through(t, START, n));
    StepOn(t, START, n);
    UngatedNoSite(t.Drop(n + 1), Through(t, START, n + 1));
    StepOn(t, START, n + 1);
    UngatedNoSite(t.Drop(n + 2), Through(t, START, n + 2));
    StepOn(t, START, n + 2);
    UngatedNoSite(t.Drop(n + 3), Through(t, START, n + 3));
    StepOn(t, START, n + 3);
  }

  /** What stands in the rewritten text from the inner `#` on. */
  function Inside(more: Text): Text {
    Ch('#', Ch('1', Ch('-', Ch('b', Ch(';', Ch(')', more))))))
  }

  lemma RhsThen(more: Text)
    ensures NESTED_RHS.Then(more) == Ch('(', Ch('=', Inside(more)))
  {
    var r := NESTED_RHS.tail.tail;
    assert r.tail.tail.tail.tail.tail.Then(more) == Ch(')', more);
    assert r.tail.tail.tail.tail.Then(more) == Ch(';', Ch(')', more));
    assert r.tail.tail.Then(more) == Ch('-', Ch('b', Ch(';', Ch(')', more))));
    assert r.Then(more) == Inside(more);
  }

  lemma InnerRhs(t: Text, more: Text)
    requires t == Ch('-', Ch('b', Ch(';', more)))
    ensures RhsEnd(t) == Some(2)
  {
    var b := t.tail;
    assert Find(b.tail, Code, 0) == Some(0);
    assert !IsBlank(t.Take(2));
    FindOn(b, 0, 0);
    hide Find;
    FindOn(t, 0, 1);
  }

  lemma InnerOperand(u: Text, t: Text)
    requires u == Ch('1', t) && t.Ch? && !WordChar(t.head)
    ensures DelayEnd(u) == Some(1) && u.Drop(1) == t
  {
    assert TriviaEnd(u, Code) == 0 && WordEnd(t) == 0;
    assert u.Drop(0) == u && t.Drop(0) == t;
  }

  lemma InnerDelay(more: Text)
    ensures DelayAt(Inside(more).tail) == Some(Extent(1, 2))
  {
    var u := Inside(more).tail;
    InnerOperand(u, u.tail);
    InnerRhs(u.tail, Ch(')', more));
    hide DelayEnd, RhsEnd;
  }

  lemma InnerSite(more: Text, s: State)
    requires s.mode == Code && Gate(s.recent)
    ensures SiteAt(Inside(more), s).Some?
  {
    hide FindSite, DelayAt;
    var t := Inside(more);
    InnerDelay(more);
    assert !Broken(t.tail.tail.tail, 1, false);
    assert !Broken(t.tail.tail, 2, false);
    assert !Broken(t.tail, 3, false);
    HashSite(t, t.tail, s);
  }

  lemma SecondPassReaches(once: Text, more: Text) returns (n: nat)
    requires once == Ch('=', Of(DELAY_MARKER).Then(Ch('(', Ch('1', Ch(',', Ch('(', Ch('=', Inside(more))))))))
    ensures Copied(once, START, n) && once.Drop(n) == Inside(more)
    ensures Through(once, START, n).mode == Code && Gate(Through(once, START, n).recent)
  {
    hide SiteAt;
    MarkerWord(Delay(End, End));
    MarkerHead(Delay(End, End));
    n := ReadsArguments(Of(DELAY_MARKER), Ch('1', Ch(',', Ch('(', Ch('=', Inside(more))))));
    LooksInside(once, n, Inside(more));
    n := n + 4;
  }

  lemma EnclosedOn(c: char, t: Text, depth: nat)
    requires c != '/' && c != '"' && !Opens(c) && !Closes(c) && Enclosed(t, Code, depth, 2)
    ensures Enclosed(Ch(c, t), Code, depth, 2)
  {
  }

  lemma InnerEnclosed()
    ensures Enclosed(Inside(CALL_CLOSE), Code, 2, 2)
  {
    var t := Inside(CALL_CLOSE);
    assert Enclosed(CALL_CLOSE, Code, 1, 2);
    assert Enclosed(Ch(')', CALL_CLOSE), Code, 2, 2);
    hide Enclosed;
    EnclosedOn(';', Ch(')', CALL_CLOSE), 2);
    EnclosedOn('b', t.tail.tail.tail.tail, 2);
    EnclosedOn('-', t.tail.tail.tail, 2);
    EnclosedOn('1', t.tail.tail, 2);
    EnclosedOn('#', t.tail, 2);
  }

  /** Away from an assignment operator there is no control to be legible. */
  lemma {:induction false} DullLegible(t: Text, r: Recent, depth: nat)
    requires Dull(t) && !Gate(r)
    ensures Legible(t, Code, r, depth)
  {
    if t.Ch? && depth > 0 { DullLegible(t.tail, Seen(r, Code, t), Deeper(Code, t, depth)); }
  }

  lemma InnerLegible(r: Recent)
    requires r.p1 == '='
    ensures Legible(Inside(CALL_CLOSE), Code, r, 2)
  {
    var t := Inside(CALL_CLOSE);
    InnerEnclosed();
    RepeatWord();
    assert Dull(t.tail.tail.tail) && Dull(t.tail);
    DullLegible(t.tail, Push(r, '#'), 2);
  }

  lemma NestedBalanced(args: Text)
    requires args == Ch('1', Ch(',', Ch('(', Ch('=', Inside(CALL_CLOSE)))))
    ensures Balanced(args, Code, 1)
  {
    var t := args.tail.tail;
    InnerEnclosed();
    EnclosedBalanced(Inside(CALL_CLOSE), Code, 2, 2);
    hide Enclosed;
    BalancedOn('=', t.tail.tail, 2);
    assert Balanced(t, Code, 1);
    hide Balanced;
    BalancedOn(',', t, 1);
    BalancedOn('1', args.tail, 1);
  }

  lemma BalancedOn(c: char, t: Text, depth: nat)
    requires c != '/' && c != '"' && !Opens(c) && !Closes(c) && Balanced(t, Code, depth)
    ensures Balanced(Ch(c, t), Code, depth)
  {
  }

  lemma LegibleOn(c: char, t: Text, r: Recent, depth: nat, deeper: nat)
    requires c != '/' && c != '"' && !Closes(c) && !Space(c) && !Gate(r)
    requires deeper == Deeper(Code, Ch(c, t), depth) && Legible(t, Code, Push(r, c), deeper)
    ensures Legible(Ch(c, t), Code, r, depth)
  {
    hide Enclosed, Gate;
  }

  lemma NestedLegible(args: Text)
    requires args == Ch('1', Ch(',', Ch('(', Ch('=', Inside(CALL_CLOSE)))))
    ensures Legible(args, Code, CALL_OPEN, 1)
  {
    var t, r := args.tail.tail, Recent('(', ',', '1');
    InnerLegible(Push(r, '='));
    hide Legible;
    LegibleOn('=', t.tail.tail, r, 2, 2);
    LegibleOn('(', t.tail, Recent(',', '1', '('), 1, 2);
    LegibleOn(',', t, Recent('1', '(', ' '), 1, 1);
    LegibleOn('1', args.tail, CALL_OPEN, 1, 1);
  }

  lemma NestedRest(t: Text)
    requires t == NESTED.tail
    ensures t.Drop(10) == SEMI && Find(t, Code, 0) == Some(10)
  {
    assert t.Drop(10) == SEMI by {
      DropMore(t, 2, 8);
      assert t.Drop(2) == BODY.Drop(0) == BODY;
      BodyTaken();
    }
    BodyFound();
    hide Find;
    FindOn(t.tail, 0, 8);
    FindOn(t, 0, 9);
  }

  lemma NestedTidyPiece(p: Piece)
    requires p == Delay(Ch('1', End), NESTED_RHS)
    ensures TidyPiece(p)
  {
    NestedSite(NESTED.tail, NESTED.tail.tail);
    NestedRest(NESTED.tail);
    RhsThen(CALL_CLOSE);
    hide SiteAt;
    SiteText(NESTED.tail, AFTER_ASSIGN);
    SiteLength(NESTED.tail, AFTER_ASSIGN);
    NestedBalanced(Args(p, CALL_CLOSE));
    NestedLegible(Args(p, CALL_CLOSE));
  }

  lemma SemiTidy(s: State)
    requires s.mode == Code
    ensures Tidy(SEMI, s)
  {
    NoTrigger(SEMI, s);
    RepeatWord();
    assert Tidy(End, After(s, SEMI));
  }

  lemma NestedTidy()
    ensures Tidy(NESTED, START)
  {
    var t := NESTED.tail;
    UngatedNoSite(NESTED, START);
    assert After(START, NESTED) == AFTER_ASSIGN;
    NestedSite(t, t.tail);
    NestedRest(t);
    hide SiteAt, TidyPiece;
    NestedTidyPiece(Delay(Ch('1', End), NESTED_RHS));
    SemiTidy(AtSemi(AFTER_ASSIGN, t));
    assert Tidy(t, AFTER_ASSIGN);
  }

  /** A tidy source with a `;` inside the brackets of a rewritten statement: its right-hand side
      `(=#1-b;)` holds what reads as a statement of its own, and the second pass rewrites that. */
  lemma SecondPassChanges()
    ensures Rewritten(Rewritten(NESTED)) != Rewritten(NESTED)
    ensures Tidy(NESTED, START) && !Inert(NESTED, START, START)
  {
    var more := Ch(')', SEMI);
    NestedRewritten();
    RhsThen(more);
    var n := SecondPassReaches(Rewritten(NESTED), more);
    InnerSite(more, Through(Rewritten(NESTED), START, n));
    ChangesAt(Rewritten(NESTED), n);
    NestedTidy();
    TwiceIsOnce(NESTED);
  }

  // `=repeat(=#1b[)@e x;`: no `;` and no comment in any bracket, but a count whose `[` is not
  // closed; inside the marker call it is closed by the call's own parenthesis.
  const COUNT := Ch('=', Ch('#', Ch('1', Ch('b', Ch('[', End)))))
  const NAMED := Ch('e', Ch(' ', Ch('x', Ch(';', End))))
  const GROUP := Ch('=', Ch('#', Ch('1', Ch('b', Ch('[', Ch(')', Ch('@', NAMED)))))))
  const REPEAT := Ch('r', Ch('e', Ch('p', Ch('e', Ch('a', Ch('t', Ch('(', GROUP)))))))
  const OPEN_COUNT := Ch('=', REPEAT)

  lemma ParenNext(c: char, t: Text, n: nat)
    requires c != '(' && c != ')' && ParenEnd(t, 1) == Some(n)
    ensures ParenEnd(Ch(c, t), 1) == Some(n + 1)
  {
  }

  lemma ParenCloses(t: Text)
    ensures ParenEnd(Ch(')', t), 1) == Some(1)
  {
    assert ParenEnd(t, 0) == Some(0);
  }

  lemma GroupClosed()
    ensures ParenEnd(GROUP, 1) == Some(6)
  {
    ParenCloses(Ch('@', NAMED));
    hide ParenEnd;
    ParenNext('[', Ch(')', Ch('@', NAMED)), 1);
    ParenNext('b', GROUP.tail.tail.tail.tail, 2);
    ParenNext('1', GROUP.tail.tail.tail, 3);
    ParenNext('#', GROUP.tail.tail, 4);
    ParenNext('=', GROUP.tail, 5);
  }

  lemma GroupTaken()
    ensures GROUP.Take(5) == COUNT && GROUP.Drop(6) == Ch('@', NAMED) && Trim(COUNT) == COUNT
  {
  }

  lemma CountFound(u: Text)
    requires u == Ch('(', GROUP)
    ensures AfterCount(u) == Some(7)
  {
    GroupClosed();
    GroupTaken();
    hide ParenEnd, Trim;
    assert TriviaEnd(Ch('@', NAMED), Code) == 0 && Ch('@', NAMED).Drop(0) == Ch('@', NAMED);
  }

  lemma RepeatFound(u: Text)
    requires u == Ch('(', GROUP)
    ensures AfterRepeat(u) == Some(7) && CountText(u) == COUNT
  {
    CountFound(u);
    GroupClosed();
    GroupTaken();
    hide AfterCount, ParenEnd, Trim;
    assert TriviaEnd(u, Code) == 0 && u.Drop(0) == u;
  }

  lemma RepeatDropped()
    ensures REPEAT.Drop(6) == Ch('(', GROUP) && REPEAT.Drop(14) == NAMED && IsRepeat(REPEAT)
  {
    var a := REPEAT.tail.tail;
    assert a.Drop(4) == Ch('(', GROUP) && REPEAT.Drop(2) == a.Drop(0) == a;
    DropMore(REPEAT, 2, 4);
    assert GROUP.Drop(7) == NAMED by {
      GroupTaken();
      DropMore(GROUP, 6, 1);
      assert Ch('@', NAMED).Drop(1) == NAMED.Drop(0) == NAMED;
    }
    assert Ch('(', GROUP).Drop(8) == GROUP.Drop(7);
    DropMore(REPEAT, 6, 8);
  }

  lemma NamedRhs(r: Text)
    requires r == NAMED.tail
    ensures RhsEnd(r) == Some(2)
  {
    assert Find(r.tail.tail, Code, 0) == Some(0);
    assert !IsBlank(r.Take(2));
    FindOn(r.tail, 0, 0);
    hide Find;
    FindOn(r, 0, 1);
  }

  lemma NamedEvent(t: Text)
    requires t == NAMED
    ensures EventControlAt(t) == Some(EventControl('0', Ch('e', End), 1)) && t.Drop(1) == t.tail
  {
    var r := t.tail;
    assert WordEnd(r) == 0 && WordEnd(t) == 1;
    assert t.Take(1) == Ch('e', End) by { assert r.Take(0) == End; }
    assert TriviaEnd(t, Code) == 0 && t.Drop(0) == t && r.Drop(0) == r;
    hide WordEnd, TriviaEnd, RawEnd;
    assert EventOperand(t) == Some(EventControl('0', Ch('e', End), 1));
  }

  /** A site from the parts of an event control found at the start of `t`. */
  lemma EventSiteIs(t: Text, s: State, count: Text, at: nat, e: EventControl)
    requires s.mode == Code && Plain(s.mode, t) && Gate(s.recent) && !DefNow(s, t)
    requires EventStart(t) == Some((count, at)) && EventControlAt(t.Drop(at + 1)) == Some(e)
    requires RhsEnd(t.Drop(at + 1).Drop(e.ctl)).Some?
    ensures var u := t.Drop(at + 1).Drop(e.ctl);
      SiteAt(t, s) == Some(Site(Event(t.Take(at + 1 + e.ctl), count, e.edge, e.sig, u.Take(RhsEnd(u).value)), at + 1 + e.ctl + RhsEnd(u).value))
  {
    hide EventControlAt, RhsEnd, EventStart, Gate, Plain, DefNow;
  }

  lemma RepeatStarts()
    ensures EventStart(REPEAT) == Some((COUNT, 13))
  {
    RepeatDropped();
    RepeatFound(REPEAT.Drop(6));
    hide AfterRepeat, CountText, IsRepeat;
  }

  lemma NamedParts()
    ensures NAMED.tail.Take(2) == Ch(' ', Ch('x', End)) && NAMED.Drop(3) == Ch(';', End)
  {
  }

  lemma RepeatReady(t: Text)
    requires t == REPEAT
    ensures Plain(Code, t) && Gate(AFTER_ASSIGN.recent) && !DefNow(AFTER_ASSIGN, t)
  {
    assert Of("`define").head == '`';
  }

  lemma RepeatSite(t: Text)
    requires t == REPEAT
    ensures SiteAt(t, AFTER_ASSIGN) == Some(Site(Event(t.Take(15), COUNT, '0', Ch('e', End), Ch(' ', Ch('x', End))), 17))
    ensures t.Drop(17) == Ch(';', End)
  {
    RepeatDropped();
    DropMore(REPEAT, 14, 3);
    NamedParts();
    RepeatStarts();
    NamedEvent(NAMED);
    NamedRhs(NAMED.tail);
    RepeatReady(t);
    hide *;
    EventSiteIs(t, AFTER_ASSIGN, COUNT, 13, EventControl('0', Ch('e', End), 1));
  }

  /** What stands in the rewritten text from the `#` of the count on. */
  function Swallowed(more: Text): Text {
    Ch('#', Ch('1', Ch('b', Ch('[', more))))
  }

  lemma CountThen(more: Text)
    ensures COUNT.Then(more) == Ch('=', Swallowed(more))
  {
    var c := COUNT.tail.tail;
    assert c.tail.Then(more) == Ch('b', Ch('[', more)) by { assert c.tail.tail.Then(more) == Ch('[', more); }
    assert c.Then(more) == Ch('1', Ch('b', Ch('[', more)));
  }

  const CALL_END := Ch(',', Ch('0', Ch(',', Ch('e', Ch(',', Ch(' ', Ch('x', Ch(')', Ch(';', End)))))))))

  lemma OpenRewritten()
    ensures Rewritten(OPEN_COUNT) == Ch('=', Of(EVENT_MARKER).Then(Ch('(', Ch('=', Swallowed(CALL_END)))))
  {
    var t := REPEAT;
    UngatedNoSite(OPEN_COUNT, START);
    ImageCopy(OPEN_COUNT, START);
    assert After(START, OPEN_COUNT) == AFTER_ASSIGN;
    RepeatSite(t);
    hide SiteAt;
    ImageSite(t, AFTER_ASSIGN);
    var z, p := AtSemi(AFTER_ASSIGN, t), SiteAt(t, AFTER_ASSIGN).value.piece;
    NoTrigger(Ch(';', End), z);
    ImageCopy(Ch(';', End), z);
    assert Image(End, After(z, Ch(';', End))) == End;
    CallShown(p);
  }

  lemma CallShown(p: Piece)
    requires p.Event? && p.count == COUNT && p.edge == '0' && p.sig == Ch('e', End) && p.rhs == Ch(' ', Ch('x', End))
    ensures Show(p, Ch(';', End)) == Of(EVENT_MARKER).Then(Ch('(', Ch('=', Swallowed(CALL_END))))
  {
    CountThen(CALL_END);
    assert p.rhs.Then(Ch(')', Ch(';', End))) == Ch(' ', Ch('x', Ch(')', Ch(';', End))));
    assert Args(p, Ch(')', Ch(';', End))) == COUNT.Then(CALL_END);
  }

  lemma SwallowedOperand(u: Text, v: Text)
    requires u == Ch('1', Ch('b', v)) && v.Ch? && !WordChar(v.head)
    ensures DelayEnd(u) == Some(2) && u.Drop(2) == v
  {
    assert WordEnd(v) == 0 && WordEnd(u.tail) == 1 && TriviaEnd(u, Code) == 0;
    assert u.Drop(0) == u && v.Drop(0) == v && u.tail.Drop(1) == v;
  }

  lemma SwallowedDelay(u: Text)
    requires u == Swallowed(CALL_END).tail
    ensures DelayAt(u) == Some(Extent(2, 9))
  {
    var v := u.tail.tail;
    SwallowedOperand(u, v);
    SwallowedEnd(v);
    hide Find, DelayEnd;
    assert v.Take(9).head == '[';
  }

  lemma SwallowedEnd(v: Text)
    requires v == Ch('[', CALL_END)
    ensures Find(v, Code, 0) == Some(9)
  {
    EndFound();
    hide Find;
    FindInside('x', Ch(')', Ch(';', End)), 1);
    FindInside(' ', CALL_END.tail.tail.tail.tail.tail.tail, 2);
    FindInside(',', CALL_END.tail.tail.tail.tail.tail, 3);
    FindInside('e', CALL_END.tail.tail.tail.tail, 4);
    FindInside(',', CALL_END.tail.tail.tail, 5);
    FindInside('0', CALL_END.tail.tail, 6);
    FindInside(',', CALL_END.tail, 7);
    FindOn(v, 0, 8);
  }

  /** Without a newline nothing is broken. */
  lemma {:induction false} OneLine(t: Text, n: nat, esc: bool)
    requires NoNewline(t)
    ensures !Broken(t, n, esc)
  {
    if n > 0 && t.Ch? {
      OneLine(t.tail, n - 1, t.head == '\\');
    }
  }

  predicate NoNewline(t: Text) {
    t.End? || (t.head != '\n' && NoNewline(t.tail))
  }

  lemma OpenReaches(once: Text, y: Text) returns (n: nat)
    requires once == Ch('=', Of(EVENT_MARKER).Then(Ch('(', Ch('=', y))))
    ensures Copied(once, START, n) && once.Drop(n) == y
    ensures Through(once, START, n).mode == Code && Gate(Through(once, START, n).recent)
  {
    hide SiteAt;
    MarkerWord(Event(End, End, '0', End, End));
    MarkerHead(Event(End, End, '0', End, End));
    n := ReadsArguments(Of(EVENT_MARKER), Ch('=', y));
    UngatedNoSite(once.Drop(n), Through(once, START, n));
    StepOn(once, START, n);
    n := n + 1;
  }

  predicate Smooth(t: Text) {
    t.End? || (t.head !in ['/', '"', ';'] && Smooth(t.tail))
  }

  lemma {:induction false} SmoothNoSemi(t: Text)
    requires Smooth(t)
    ensures NoSemi(t, Code)
  {
    if t.Ch? { SmoothNoSemi(t.tail); }
  }

  const ARGS_END := Ch(',', Ch('0', Ch(',', Ch('e', Ch(',', Ch(' ', Ch('x', CALL_CLOSE)))))))

  lemma OpenArgs(p: Piece)
    requires p.Event? && p.count == COUNT && p.edge == '0' && p.sig == Ch('e', End) && p.rhs == Ch(' ', Ch('x', End))
    ensures NoSemi(Args(p, CALL_CLOSE), Code)
  {
    var more := ARGS_END;
    CountThen(more);
    assert p.rhs.Then(CALL_CLOSE) == Ch(' ', Ch('x', CALL_CLOSE));
    assert Args(p, CALL_CLOSE) == COUNT.Then(more);
    assert Smooth(more.tail.tail.tail.tail);
    assert Smooth(more);
    assert Smooth(Swallowed(more));
    SmoothNoSemi(Args(p, CALL_CLOSE));
  }

  lemma OpenSemiFree()
    ensures SemiFree(OPEN_COUNT, START)
  {
    var t := REPEAT;
    UngatedNoSite(OPEN_COUNT, START);
    assert After(START, OPEN_COUNT) == AFTER_ASSIGN;
    RepeatSite(t);
    NoTrigger(SEMI, AtSemi(AFTER_ASSIGN, t));
    hide SiteAt, NoSemi;
    OpenArgs(SiteAt(t, AFTER_ASSIGN).value.piece);
    assert SemiFree(End, After(AtSemi(AFTER_ASSIGN, t), SEMI));
    assert SemiFree(SEMI, AtSemi(AFTER_ASSIGN, t));
    assert SemiFree(t, AFTER_ASSIGN);
  }

  lemma NoneInside(c: char, t: Text)
    requires c != '/' && c != '"' && !Opens(c) && !Closes(c) && Find(t, Code, 1) == None
    ensures Find(Ch(c, t), Code, 1) == None
  {
    FindNext(Ch(c, t), 1);
  }

  /** By itself the call has no `;` behind its bracket. */
  lemma CallUnended(v: Text)
    requires v == Ch('[', ARGS_END)
    ensures Find(v, Code, 0) == None
  {
    FindNext(CALL_CLOSE, 1);
    assert Find(End, Code, 0) == None;
    hide Find;
    NoneInside('x', CALL_CLOSE);
    NoneInside(' ', ARGS_END.tail.tail.tail.tail.tail.tail);
    NoneInside(',', ARGS_END.tail.tail.tail.tail.tail);
    NoneInside('e', ARGS_END.tail.tail.tail.tail);
    NoneInside(',', ARGS_END.tail.tail.tail);
    NoneInside('0', ARGS_END.tail.tail);
    NoneInside(',', ARGS_END.tail);
    FindNext(v, 0);
  }

  lemma SwallowedAlone(y: Text, s: State)
    requires y == Swallowed(ARGS_END) && s.mode == Code
    ensures SiteAt(y, s).None?
  {
    RepeatWord();
    SwallowedOperand(y.tail, y.tail.tail.tail);
    CallUnended(y.tail.tail.tail);
    hide DelayEnd, Find, EventSite, RepeatAt;
  }

  lemma {:induction false} StartsItself(t: Text)
    ensures Starts(t, t)
  {
    if t.Ch? { StartsItself(t.tail); }
  }

  /** The text from `=` on is copied when nothing follows the call. */
  lemma ArgumentsCopied(t: Text, s: State)
    requires t == Ch('=', Swallowed(ARGS_END)) && s.mode == Code && !Gate(s.recent)
    ensures Copied(t, s, t.Size())
  {
    var y, z := t.tail, After(s, t);
    UngatedNoSite(t, s);
    OneStep(t, s);
    SwallowedAlone(y, z);
    OneStep(y, z);
    StartsItself(y.tail);
    assert Dull(ARGS_END.tail.tail.tail.tail);
    assert Dull(ARGS_END);
    assert Dull(y.tail);
    DullCopied(y.tail, y.tail, After(z, y));
    TwoThen(t, s);
  }

  lemma TwoThen(t: Text, s: State)
    requires t.Ch? && t.tail.Ch? && Copied(t, s, 1) && Through(t, s, 1) == After(s, t)
    requires Copied(t.tail, After(s, t), 1) && Through(t.tail, After(s, t), 1) == After(After(s, t), t.tail)
    requires Copied(t.tail.tail, After(After(s, t), t.tail), t.tail.tail.Size())
    ensures Copied(t, s, t.Size())
  {
    hide SiteAt, Copied, Through, After;
    var y, z := t.tail, After(s, t);
    assert t.Drop(1) == y && y.Drop(1) == y.tail;
    CopiedMore(y, z, 1, y.tail.Size());
    CopiedMore(t, s, 1, y.Size());
  }

  lemma MarkedCopied(marker: Text, x: Text, s: State)
    requires s.mode == Code && AllWord(marker) && marker.Ch? && marker.head == '$'
    requires x == Ch('=', Swallowed(ARGS_END))
    ensures Copied(marker.Then(Ch('(', x)), s, marker.Then(Ch('(', x)).Size())
  {
    hide SiteAt, Swallowed, Copied, Through, AtArguments;
    MarkerCopied(marker, x, s);
    ArgumentsCopied(x, AtArguments(marker, s));
    ThenSplits(marker, Ch('(', x));
    CopiedMore(marker.Then(Ch('(', x)), s, marker.Size() + 1, x.Size());
  }

  lemma OpenCallCopied(c: Text)
    requires c == Of(EVENT_MARKER).Then(Ch('(', Ch('=', Swallowed(ARGS_END))))
    ensures Copied(c, AFTER_ASSIGN, c.Size())
  {
    hide Swallowed, Copied;
    MarkerWord(Event(End, End, '0', End, End));
    MarkerHead(Event(End, End, '0', End, End));
    MarkedCopied(Of(EVENT_MARKER), Ch('=', Swallowed(ARGS_END)), AFTER_ASSIGN);
  }

  lemma OpenShown(p: Piece)
    requires p.Event? && p.count == COUNT && p.edge == '0' && p.sig == Ch('e', End) && p.rhs == Ch(' ', Ch('x', End))
    ensures Show(p, End) == Of(EVENT_MARKER).Then(Ch('(', Ch('=', Swallowed(ARGS_END))))
  {
    CountThen(ARGS_END);
    assert p.rhs.Then(CALL_CLOSE) == Ch(' ', Ch('x', CALL_CLOSE));
    assert Args(p, CALL_CLOSE) == COUNT.Then(ARGS_END);
  }

  lemma OpenInert()
    ensures Inert(OPEN_COUNT, START, START)
  {
    var t, z := REPEAT, AtSemi(AFTER_ASSIGN, REPEAT);
    UngatedNoSite(OPEN_COUNT, START);
    assert After(START, OPEN_COUNT) == AFTER_ASSIGN;
    RepeatSite(t);
    NoTrigger(SEMI, z);
    hide SiteAt, Copied, Through;
    var p := SiteAt(t, AFTER_ASSIGN).value.piece;
    OpenShown(p);
    OpenCallCopied(Show(p, End));
    var u := Through(Show(p, End), AFTER_ASSIGN, Show(p, End).Size());
    assert Inert(End, After(z, SEMI), After(u, SEMI));
    assert Inert(SEMI, z, u);
    assert Inert(t, AFTER_ASSIGN, AFTER_ASSIGN);
  }

  /** Brackets that do not match: the count `=#1b[` of a repeat control reads as a statement of
      its own inside the marker call, and the second pass rewrites that, although no argument
      has a `;` and the call, read by itself, offers no site. */
  lemma OpenCountChanges()
    ensures Rewritten(Rewritten(OPEN_COUNT)) != Rewritten(OPEN_COUNT)
    ensures SemiFree(OPEN_COUNT, START) && Inert(OPEN_COUNT, START, START) && !Tidy(OPEN_COUNT, START)
  {
    OpenRewritten();
    var once, y := Rewritten(OPEN_COUNT), Swallowed(CALL_END);
    var n := OpenReaches(once, y);
    SwallowedSite(y, Through(once, START, n));
    OpenSemiFree();
    OpenInert();
    hide *;
    ChangesAt(once, n);
    if Tidy(OPEN_COUNT, START) {
      SemiFreeTwice(OPEN_COUNT);
    }
  }

  lemma SwallowedLine()
    ensures NoNewline(Swallowed(CALL_END))
  {
    assert NoNewline(CALL_END.tail.tail.tail.tail.tail);
    assert NoNewline(CALL_END);
  }

  lemma SwallowedSite(y: Text, s: State)
    requires y == Swallowed(CALL_END) && s.mode == Code && Gate(s.recent)
    ensures SiteAt(y, s).Some?
  {
    SwallowedLine();
    SwallowedDelay(y.tail);
    OneLine(y, 12, false);
    hide *;
    SiteFrom(y, s, 2, 9);
  }

  lemma SiteFrom(y: Text, s: State, ctl: nat, rhs: nat)
    requires y.Ch? && y.head == '#' && y.tail.Ch? && y.tail.head != '#' && s.mode == Code && Gate(s.recent)
    requires DelayAt(y.tail) == Some(Extent(ctl, rhs)) && !Broken(y, 1 + ctl + rhs, false)
    ensures SiteAt(y, s).Some?
  {
    hide DelayAt, FindSite, Broken;
    HashSite(y, y.tail, s);
  }

  // `=@`, a newline and `e x;`: the newline between the operator and the event is not written.
  const SPLIT := Ch('=', Ch('@', Ch('\n', NAMED)))

  lemma SplitControl(t: Text)
    requires t == Ch('\n', NAMED)
    ensures EventControlAt(t) == Some(EventControl('0', Ch('e', End), 2)) && t.Drop(2) == NAMED.tail
  {
    NamedEvent(NAMED);
    assert TriviaEnd(NAMED, Code) == 0 && NAMED.Drop(0) == NAMED;
    hide EventOperand;
    assert TriviaEnd(t, Code) == 1 && t.Drop(1) == NAMED.Drop(0);
    assert t.Drop(2) == NAMED.Drop(1);
  }

  lemma SplitReady(t: Text)
    requires t == SPLIT.tail
    ensures Plain(Code, t) && Gate(AFTER_ASSIGN.recent) && !DefNow(AFTER_ASSIGN, t) && EventStart(t) == Some((Of("1"), 0))
  {
    assert Of("`define").head == '`';
    hide RepeatAt;
  }

  lemma SplitParts(t: Text)
    requires t == SPLIT.tail
    ensures t.Drop(1) == t.tail && t.Take(3) == Ch('@', Ch('\n', Ch('e', End))) && t.Drop(5) == Ch(';', End)
  {
    NamedParts();
    assert t.tail.Drop(0) == t.tail && NAMED.Take(1) == Ch('e', NAMED.tail.Take(0));
    assert t.tail.Take(2) == Ch('\n', NAMED.Take(1));
    assert t.Drop(5) == t.tail.Drop(4) == NAMED.Drop(3);
  }

  lemma SplitSite(t: Text)
    requires t == SPLIT.tail
    ensures SiteAt(t, AFTER_ASSIGN)
         == Some(Site(Event(Ch('@', Ch('\n', Ch('e', End))), Of("1"), '0', Ch('e', End), Ch(' ', Ch('x', End))), 5))
  {
    SplitControl(t.tail);
    NamedRhs(NAMED.tail);
    NamedParts();
    SplitReady(t);
    SplitParts(t);
    hide *;
    EventSiteIs(t, AFTER_ASSIGN, Of("1"), 0, EventControl('0', Ch('e', End), 2));
  }

  /** The rewriting of that text has one line fewer than the text. */
  lemma EventLosesLine()
    ensures DelayLayout.Lines(Rewritten(SPLIT)) == DelayLayout.Lines(SPLIT) - 1
  {
    var t, z := SPLIT.tail, AtSemi(AFTER_ASSIGN, SPLIT.tail);
    UngatedNoSite(SPLIT, START);
    assert After(START, SPLIT) == AFTER_ASSIGN;
    SplitSite(t);
    SplitParts(t);
    NoTrigger(Ch(';', End), z);
    hide SiteAt;
    var p := SiteAt(t, AFTER_ASSIGN).value.piece;
    assert Scan(End, After(z, Ch(';', End))) == Nil;
    var rest := Cons(Copy(';'), Nil);
    assert Scan(Ch(';', End), z) == rest;
    assert Scan(t, AFTER_ASSIGN) == Cons(p, rest);
    assert Scan(SPLIT, START) == Cons(Copy('='), Cons(p, rest));
    DelayLayout.LinesOf(Scan(SPLIT, START));
    PiecesAreSource(SPLIT, START);
    DelayLayout.LinesFrom("1", 0);
    DelayLayout.LinesThen(p.count, Ch(p.edge, p.sig));
    assert DelayLayout.LostIn(p) == 1;
  }
}
