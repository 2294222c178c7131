/** The rewriting of the ordinary statements, for every delay, signal and right-hand side: what the
    pass is for (src/intra_delay.rs, module comment and tests). */
module DelayForms {
  import opened Results
  import opened Texts
  import opened Lexing
  import opened IntraDelay
  import opened DelayTwice
  import opened DelayEvents

  predicate Ordinary(c: char) {
    !Opens(c) && !Closes(c) && c != '/' && c != '"' && c != ';' && c != '\n'
  }

  predicate AllOrdinary(t: Text) {
    t.End? || (Ordinary(t.head) && AllOrdinary(t.tail))
  }

  /** A blank and then something, on one line, without brackets, strings or comments. */
  predicate Value(r: Text) {
    r.Ch? && r.head == ' ' && AllOrdinary(r) && !IsBlank(r)
  }

  predicate AtSemicolon(y: Text) {
    y.Ch? && y.head == ';'
  }

  /** The marker calls that the simulator looks for, followed by `more`. */
  function TimedCall(marker: string, control: Text, value: Text, more: Text): Text {
    Of(marker).Then(Ch('(', control.Then(Ch(',', value.Then(Ch(')', more))))))
  }

  function EventCall(count: Text, edge: char, sig: Text, value: Text, more: Text): Text {
    var rest := Ch(',', value.Then(Ch(')', more)));
    Of("$__xz_intra_ev").Then(Ch('(', count.Then(Ch(',', Ch(edge, Ch(',', sig.Then(rest)))))))
  }

  // ---------------------------------------------------------------- scanning them

  lemma {:induction false} ValueFound(r: Text, y: Text)
    requires AllOrdinary(r) && AtSemicolon(y)
    ensures Find(r.Then(y), Code, 0) == Some(r.Size())
  {
    if r.Ch? { ValueFound(r.tail, y); }
  }

  lemma ValueEnds(r: Text, y: Text)
    requires Value(r) && AtSemicolon(y)
    ensures RhsEnd(r.Then(y)) == Some(r.Size()) && r.Then(y).Take(r.Size()) == r && r.Then(y).Drop(r.Size()) == y
  {
    ValueFound(r, y);
    ThenSplits(r, y);
  }

  lemma {:induction false} WordEnds(d: Text, z: Text)
    requires AllWord(d) && z.Ch? && !WordChar(z.head)
    ensures WordEnd(d.Then(z)) == d.Size()
  {
    if d.Ch? { WordEnds(d.tail, z); }
  }

  lemma WordControl(d: Text, r: Text, y: Text)
    requires AllWord(d) && d.Ch? && Value(r) && AtSemicolon(y)
    ensures var u := d.Then(r.Then(y));
      && DelayEnd(u) == Some(d.Size()) && DelayAt(u) == Some(Extent(d.Size(), r.Size()))
      && u.Take(d.Size()) == d && u.Drop(d.Size()) == r.Then(y) && TriviaEnd(u, Code) == 0
  {
    hide RhsEnd, IsBlank;
    WordEnds(d, r.Then(y));
    ThenSplits(d, r.Then(y));
    ValueEnds(r, y);
    var u := d.Then(r.Then(y));
    assert WordChar(u.head) && TriviaEnd(u, Code) == 0 && u.Drop(0) == u;
    hide WordEnd, TriviaEnd;
  }

  /** No unescaped newline. */
  predicate OneLine(t: Text) {
    t.End? || (t.head != '\n' && OneLine(t.tail))
  }

  lemma {:induction false} OneLineThen(a: Text, b: Text, n: nat, esc: bool)
    requires OneLine(a) && n <= a.Size()
    ensures !Broken(a.Then(b), n, esc)
  {
    if n > 0 { OneLineThen(a.tail, b, n - 1, a.head == '\\'); }
  }

  lemma {:induction false} LineOfWord(d: Text, r: Text)
    requires AllWord(d) && AllOrdinary(r)
    ensures OneLine(d.Then(r)) && d.Then(r).Size() == d.Size() + r.Size()
  {
    if d.Ch? { LineOfWord(d.tail, r); } else if r.Ch? { LineOfWord(d, r.tail); }
  }

  // ---------------------------------------------------------------- delays and cycle delays

  lemma DelaySiteIs(d: Text, r: Text, y: Text, inDef: bool)
    requires AllWord(d) && d.Ch? && Value(r) && AtSemicolon(y)
    ensures var u := d.Then(r.Then(y));
      && DelaySite(Ch('#', u), u, 1, inDef) == Some(Site(Delay(d, r), 1 + d.Size() + r.Size()))
      && DelaySite(Ch('#', Ch('#', u)), u, 2, inDef) == Some(Site(Cycle(d, r), 2 + d.Size() + r.Size()))
  {
    var u := d.Then(r.Then(y));
    WordControl(d, r, y);
    ValueEnds(r, y);
    LineOfWord(d, r);
    ThenAssoc(d, r, y);
    OneLineThen(Ch('#', d.Then(r)), y, 1 + d.Size() + r.Size(), false);
    OneLineThen(Ch('#', Ch('#', d.Then(r))), y, 2 + d.Size() + r.Size(), false);
    hide DelayAt, Broken;
  }

  lemma HashStarts(u: Text, s: State)
    requires s.mode == Code && Gate(s.recent) && u.Ch? && u.head != '#'
    ensures SiteAt(Ch('#', u), s) == DelaySite(Ch('#', u), u, 1, DefNow(s, Ch('#', u)))
    ensures SiteAt(Ch('#', Ch('#', u)), s) == DelaySite(Ch('#', Ch('#', u)), u, 2, DefNow(s, Ch('#', Ch('#', u))))
  {
    hide DelaySite, EventSite, RepeatAt;
    RepeatWord();
  }

  /** `= #d r;` and `<= #d r;` become `= $__xz_intra_delay(d, r);` and so on, in a `define line or
      out of it. */
  lemma DelayWritten(d: Text, r: Text, y: Text, s: State)
    requires AllWord(d) && d.Ch? && Value(r) && AtSemicolon(y) && s.mode == Code && Gate(s.recent)
    ensures var t := Ch('#', d.Then(r.Then(y)));
      Image(t, s) == TimedCall("$__xz_intra_delay", d, r, Image(y, AtSemi(s, t)))
  {
    hide SiteAt, DelaySite, DelayAt, DelayEnd, Value, RhsEnd, Find, AllWord;
    var u := d.Then(r.Then(y));
    DelaySiteIs(d, r, y, DefNow(s, Ch('#', u)));
    WordFirst(d, u, r.Then(y));
    HashStarts(u, s);
    BehindBoth(d, r, y);
    ImageSite(Ch('#', u), s);
  }

  /** `##` becomes the cycle marker. */
  lemma CycleWritten(d: Text, r: Text, y: Text, s: State)
    requires AllWord(d) && d.Ch? && Value(r) && AtSemicolon(y) && s.mode == Code && Gate(s.recent)
    ensures var t := Ch('#', Ch('#', d.Then(r.Then(y))));
      Image(t, s) == TimedCall("$__xz_intra_cycle", d, r, Image(y, AtSemi(s, t)))
  {
    hide SiteAt, DelaySite, DelayAt, DelayEnd, Value, RhsEnd, Find, AllWord;
    var u := d.Then(r.Then(y));
    var t := Ch('#', Ch('#', u));
    DelaySiteIs(d, r, y, DefNow(s, t));
    WordFirst(d, u, r.Then(y));
    HashStarts(u, s);
    BehindBoth(d, r, y);
    ImageSite(t, s);
    assert t.Drop(2 + d.Size() + r.Size()) == Ch('#', u).Drop(1 + d.Size() + r.Size());
  }

  lemma WordFirst(d: Text, u: Text, z: Text)
    requires AllWord(d) && d.Ch? && u == d.Then(z)
    ensures u.Ch? && u.head != '#'
  {
  }

  lemma BehindBoth(d: Text, r: Text, y: Text)
    ensures Ch('#', d.Then(r.Then(y))).Drop(1 + d.Size() + r.Size()) == y
  {
    ThenSplits(d, r.Then(y));
    ThenSplits(r, y);
    DropMore(d.Then(r.Then(y)), d.Size(), r.Size());
  }

  // ---------------------------------------------------------------- events

  lemma NamedEventIs(e: Text, r: Text, y: Text)
    requires AllWord(e) && e.Ch? && NameStart(e.head) && Value(r) && AtSemicolon(y)
    ensures EventControlAt(e.Then(r.Then(y))) == Some(EventControl('0', e, e.Size()))
  {
    WordControl(e, r, y);
    var u := e.Then(r.Then(y));
    assert u.Drop(0) == u;
    hide TriviaEnd, DelayEnd, DelayAt, RhsEnd, Value;
  }

  /** An event control of any kind, with its value, after an assignment operator. */
  lemma EventSiteWritten(u: Text, control: Text, e: EventControl, r: Text, y: Text, s: State)
    requires u == control.Then(r.Then(y)) && OneLine(control) && EventControlAt(u) == Some(e) && e.ctl == control.Size()
    requires Value(r) && AtSemicolon(y) && s.mode == Code && Gate(s.recent)
    ensures Image(Ch('@', u), s) == EventCall(Ch('1', End), e.edge, e.sig, r, Image(y, AtSemi(s, Ch('@', u))))
  {
    hide EventControlAt, Value, AllOrdinary, IsBlank, SiteAt, EventSite, Gate, OneLine, Show, EventCall;
    EventSiteFound(u, control, e, r, y, DefNow(s, Ch('@', u)));
    AtStarts(Ch('@', u), s);
    AtBehind(control, r, y);
    ImageSite(Ch('@', u), s);
    EventShown(Event(Ch('@', control), Of("1"), e.edge, e.sig, r), Image(y, AtSemi(s, Ch('@', u))));
  }

  lemma EventShown(p: Piece, more: Text)
    requires p.Event? && p.count == Of("1")
    ensures Show(p, more) == EventCall(Ch('1', End), p.edge, p.sig, p.rhs, more)
  {
    assert Of("1") == Ch('1', End);
  }

  lemma AtBehind(control: Text, r: Text, y: Text)
    ensures Ch('@', control.Then(r.Then(y))).Drop(1 + control.Size() + r.Size()) == y
  {
    ThenSplits(control, r.Then(y));
    ThenSplits(r, y);
    DropMore(control.Then(r.Then(y)), control.Size(), r.Size());
  }

  lemma AtStarts(t: Text, s: State)
    requires t.Ch? && t.head == '@' && s.mode == Code && Gate(s.recent)
    ensures SiteAt(t, s) == EventSite(t, 0, Of("1"), DefNow(s, t))
  {
    hide EventSite;
  }

  lemma EventLine(control: Text, r: Text, y: Text)
    requires OneLine(control) && Value(r)
    ensures !Broken(Ch('@', control.Then(r.Then(y))), 1 + control.Size() + r.Size(), false)
  {
    LineOfBoth(control, r);
    ThenAssoc(control, r, y);
    OneLineThen(Ch('@', control.Then(r)), y, 1 + control.Size() + r.Size(), false);
    hide Broken;
  }

  lemma EventSiteFound(u: Text, control: Text, e: EventControl, r: Text, y: Text, inDef: bool)
    requires u == control.Then(r.Then(y)) && OneLine(control) && EventControlAt(u) == Some(e) && e.ctl == control.Size()
    requires Value(r) && AtSemicolon(y)
    ensures EventSite(Ch('@', u), 0, Of("1"), inDef)
         == Some(Site(Event(Ch('@', control), Of("1"), e.edge, e.sig, r), 1 + control.Size() + r.Size()))
  {
    hide EventControlAt, Broken, RhsEnd, Value, OneLine, Of, EventRest;
    var t := Ch('@', u);
    EventLine(control, r, y);
    ThenSplits(control, r.Then(y));
    ValueEnds(r, y);
    AtTaken(u, control.Size());
    EventRestIs(t, 1, Of("1"), e, inDef, r.Then(y), r.Size());
  }

  lemma AtTaken(u: Text, n: nat)
    ensures Ch('@', u).Drop(1) == u && Ch('@', u).Take(1 + n) == Ch('@', u.Take(n))
  {
    assert u.Drop(0) == u;
  }

  lemma EventRestIs(t: Text, m: nat, count: Text, e: EventControl, inDef: bool, w: Text, n: nat)
    requires t.Drop(m).Drop(e.ctl) == w && RhsEnd(w) == Some(n) && !Broken(t, m + e.ctl + n, false)
    ensures EventRest(t, m, count, e, inDef)
         == Some(Site(Event(t.Take(m + e.ctl), count, e.edge, e.sig, w.Take(n)), m + e.ctl + n))
  {
    hide RhsEnd, Broken;
  }

  lemma {:induction false} LineOfBoth(a: Text, r: Text)
    requires OneLine(a) && AllOrdinary(r)
    ensures OneLine(a.Then(r)) && a.Then(r).Size() == a.Size() + r.Size()
  {
    if a.Ch? { LineOfBoth(a.tail, r); } else if r.Ch? { LineOfBoth(a, r.tail); }
  }

  lemma {:induction false} LineOfWordOnly(d: Text)
    requires AllWord(d)
    ensures OneLine(d)
  {
    if d.Ch? { LineOfWordOnly(d.tail); }
  }

  /** `= @e r;` becomes `= $__xz_intra_ev(1,0,e, r);`. */
  lemma NamedEventWritten(e: Text, r: Text, y: Text, s: State)
    requires AllWord(e) && e.Ch? && NameStart(e.head) && Value(r) && AtSemicolon(y) && s.mode == Code && Gate(s.recent)
    ensures var t := Ch('@', e.Then(r.Then(y)));
      Image(t, s) == EventCall(Ch('1', End), '0', e, r, Image(y, AtSemi(s, t)))
  {
    NamedEventIs(e, r, y);
    LineOfWordOnly(e);
    hide EventControlAt, Value;
    EventSiteWritten(e.Then(r.Then(y)), e, EventControl('0', e, e.Size()), r, y, s);
  }

  // ---------------------------------------------------------------- event expressions

  /** A name, perhaps with a select. */
  predicate Signal(sig: Text, name: Text, sel: Text) {
    && AllWord(name) && name.Ch? && sig == name.Then(if sel.End? then End else Ch('[', sel.Then(Ch(']', End))))
    && AllWord(sel)
  }

  lemma {:induction false} WordTight(t: Text)
    requires AllWord(t)
    ensures SigChars(t)
  {
    if t.Ch? { WordTight(t.tail); }
  }

  lemma {:induction false} TightThen(a: Text, b: Text)
    requires SigChars(a) && SigChars(b)
    ensures SigChars(a.Then(b))
  {
    if a.Ch? { TightThen(a.tail, b); } else if b.Ch? { TightThen(End, b.tail); }
  }

  lemma SignalTight(sig: Text, name: Text, sel: Text)
    requires Signal(sig, name, sel)
    ensures SigChars(sig) && sig.Ch? && WordChar(sig.head)
  {
    WordTight(name);
    WordTight(sel);
    if sel.Ch? {
      TightThen(sel, Ch(']', End));
      TightThen(name, Ch('[', sel.Then(Ch(']', End))));
    } else {
      TightThen(name, End);
    }
  }

  lemma {:induction false} WordRaw(t: Text, z: Text, depth: nat)
    requires AllWord(t) && depth > 0
    ensures RawEnd(t.Then(z), Code, depth) == Plus(t.Size(), RawEnd(z, Code, depth))
  {
    if t.Ch? { WordRaw(t.tail, z, depth); }
  }

  /** One character of a group. */
  lemma RawStep(c: char, z: Text, depth: nat)
    requires depth > 0 && c != '"'
    ensures RawEnd(Ch(c, z), Code, depth)
         == Plus(1, RawEnd(z, Code, if Opens(c) then depth + 1 else if Closes(c) then depth - 1 else depth))
    ensures RawEnd(z, Code, 0) == Some(0)
  {
  }

  lemma SelectRaw(sel: Text, z: Text)
    requires AllWord(sel)
    ensures RawEnd(Ch('[', sel.Then(Ch(']', Ch(')', z)))), Code, 1) == Some(sel.Size() + 3)
  {
    hide RawEnd, AllWord;
    var close := Ch(']', Ch(')', z));
    RawStep(')', z, 1);
    RawStep(']', Ch(')', z), 2);
    WordRaw(sel, close, 2);
    RawStep('[', sel.Then(close), 1);
  }

  lemma SignalRaw(sig: Text, name: Text, sel: Text, z: Text)
    requires Signal(sig, name, sel)
    ensures RawEnd(sig.Then(Ch(')', z)), Code, 1) == Some(sig.Size() + 1)
  {
    hide AllWord, RawEnd;
    if sel.End? {
      ThenEnd(name);
      RawStep(')', z, 1);
      WordRaw(name, Ch(')', z), 1);
    } else {
      var rest := Ch('[', sel.Then(Ch(']', Ch(')', z))));
      SelectRaw(sel, z);
      SelectText(name, sel, Ch(')', z));
      WordRaw(name, rest, 1);
    }
  }

  lemma SelectText(name: Text, sel: Text, z: Text)
    ensures name.Then(Ch('[', sel.Then(Ch(']', End)))).Then(z) == name.Then(Ch('[', sel.Then(Ch(']', z))))
    ensures name.Then(Ch('[', sel.Then(Ch(']', End)))).Size() == name.Size() + sel.Size() + 2
  {
    ThenAssoc(name, Ch('[', sel.Then(Ch(']', End))), z);
    ThenAssoc(sel, Ch(']', End), z);
    ThenSplits(sel, Ch(']', End));
    ThenSplits(name, Ch('[', sel.Then(Ch(']', End))));
    assert Ch(']', End).Then(z) == Ch(']', z);
  }

  lemma {:induction false} TightInk(t: Text)
    requires SigChars(t)
    ensures EndsInk(t) && (t.Ch? ==> !TrimSpace(t.head)) && (t.Ch? ==> !AllTrimSpace(t)) && TrimEnd(t) == t
  {
    if t.Ch? { TightInk(t.tail); }
  }

  lemma {:induction false} TightHasNo(t: Text, p: Text)
    requires SigChars(t) && p.Ch? && (p.head == ' ' || p.head == ',')
    ensures !Contains(t, p)
  {
    if t.Ch? { TightHasNo(t.tail, p); }
  }

  /** The words in front of a signal, and the code that is written for them. */
  predicate EdgeWord(w: Text, code: char) {
    || (w == End && code == '0')
    || (w == Of("posedge ") && code == '1')
    || (w == Of("negedge ") && code == '2')
  }

  /** Such a word is letters and a blank. */
  lemma EdgeLetters()
    ensures Of("posedge ") == Of("posedge").Then(Ch(' ', End)) && AllWord(Of("posedge"))
    ensures Of("negedge ") == Of("negedge").Then(Ch(' ', End)) && AllWord(Of("negedge"))
  {
    AppendFrom("posedge", " ", 0);
    AppendFrom("negedge", " ", 0);
    assert "posedge" + " " == "posedge " && "negedge" + " " == "negedge ";
    assert Of(" ") == Ch(' ', End);
    WordFrom("posedge", 0);
    WordFrom("negedge", 0);
  }

  lemma SplitEdge(w: Text, code: char) returns (word: Text)
    requires EdgeWord(w, code) && w.Ch?
    ensures AllWord(word) && w == word.Then(Ch(' ', End))
  {
    EdgeLetters();
    word := if code == '1' then Of("posedge") else Of("negedge");
  }

  lemma {:induction false} TightStarts(t: Text, p: Text)
    requires SigChars(t) && Starts(t, p)
    ensures SigChars(p)
  {
    if p.Ch? { TightStarts(t.tail, p.tail); }
  }

  lemma {:induction false} NotTight(word: Text, more: Text)
    ensures !SigChars(word.Then(Ch(' ', more)))
  {
    if word.Ch? { NotTight(word.tail, more); }
  }

  lemma {:induction false} WordHasNo(word: Text, t: Text, p: Text)
    requires AllWord(word) && p.Ch? && (p.head == ' ' || p.head == ',') && !Contains(t, p)
    ensures !Contains(word.Then(t), p)
  {
    if word.Ch? { WordHasNo(word.tail, t, p); }
  }

  lemma Separators()
    ensures Of(" or ").Ch? && Of(" or ").head == ' ' && !SigChars(Of(" or ").tail)
    ensures Of(",").Ch? && Of(",").head == ','
  {
    var p := From(" or ", 1);
    assert p == Ch('o', Ch('r', Ch(' ', End)));
    NotTight(Ch('o', Ch('r', End)), End);
    assert p == Ch('o', Ch('r', End)).Then(Ch(' ', End));
  }

  lemma WordedHasNo(w: Text, code: char, sig: Text)
    requires EdgeWord(w, code) && SigChars(sig)
    ensures !Contains(w.Then(sig), Of(" or ")) && !Contains(w.Then(sig), Of(","))
  {
    Separators();
    TightHasNo(sig, Of(" or "));
    TightHasNo(sig, Of(","));
    if w.Ch? {
      var word := SplitEdge(w, code);
      var t := Ch(' ', sig);
      if Starts(t, Of(" or ")) { TightStarts(sig, Of(" or ").tail); }
      ThenAssoc(word, Ch(' ', End), sig);
      assert Ch(' ', End).Then(sig) == t;
      WordHasNo(word, t, Of(" or "));
      WordHasNo(word, t, Of(","));
    }
  }

  lemma {:induction false} InkBehind(a: Text, b: Text)
    requires b.Ch? && SigChars(b)
    ensures TrimEnd(a.Then(b)) == a.Then(b) && !AllTrimSpace(a.Then(b))
  {
    if a.Ch? { InkBehind(a.tail, b); } else { TightInk(b); }
  }

  lemma WordedTrimmed(w: Text, code: char, sig: Text)
    requires EdgeWord(w, code) && SigChars(sig) && sig.Ch?
    ensures Trim(w.Then(sig)) == w.Then(sig) && Trim(sig) == sig
  {
    InkBehind(w, sig);
    TightInk(sig);
    EdgeWords();
  }

  /** The edge and the signal of an event expression. */
  lemma ExpressionRead(w: Text, code: char, sig: Text, name: Text, sel: Text)
    requires EdgeWord(w, code) && Signal(sig, name, sel) && !(w.End? && (Starts(sig, Of("posedge ")) || Starts(sig, Of("negedge "))))
    ensures EdgeAndSig(Trim(w.Then(sig))) == Some((code, sig))
  {
    hide Contains, Trim, Of, Signal, SigChars;
    SignalTight(sig, name, sel);
    WordedHasNo(w, code, sig);
    WordedTrimmed(w, code, sig);
    EdgeWords();
    if w.Ch? {
      ThenSplits(w, sig);
      StartsIff(w.Then(sig), w);
      if w == Of("negedge ") { assert !Starts(w.Then(sig), Of("posedge ")); }
    }
  }

  lemma TightNoEdge(sig: Text)
    requires SigChars(sig)
    ensures !Starts(sig, Of("posedge ")) && !Starts(sig, Of("negedge "))
  {
    EdgeLetters();
    NotTight(Of("posedge"), End);
    NotTight(Of("negedge"), End);
    if Starts(sig, Of("posedge ")) { TightStarts(sig, Of("posedge ")); }
    if Starts(sig, Of("negedge ")) { TightStarts(sig, Of("negedge ")); }
  }

  lemma LineOfGroup(w: Text, code: char, sig: Text)
    requires EdgeWord(w, code) && SigChars(sig)
    ensures OneLine(Ch('(', w.Then(sig.Then(Ch(')', End)))))
  {
    LineOfTight(sig, Ch(')', End));
    if w.Ch? {
      var word := SplitEdge(w, code);
      var rest := Ch(' ', sig.Then(Ch(')', End)));
      ThenAssoc(word, Ch(' ', End), sig.Then(Ch(')', End)));
      assert Ch(' ', End).Then(sig.Then(Ch(')', End))) == rest;
      WordTight(word);
      LineOfTight(word, rest);
    }
  }

  lemma {:induction false} LineOfTight(a: Text, b: Text)
    requires SigChars(a) && OneLine(b)
    ensures OneLine(a.Then(b))
  {
    if a.Ch? { LineOfTight(a.tail, b); }
  }

  lemma WordedRaw(w: Text, code: char, z: Text)
    requires EdgeWord(w, code)
    ensures RawEnd(w.Then(z), Code, 1) == Plus(w.Size(), RawEnd(z, Code, 1))
  {
    hide Of, RawEnd;
    if w.Ch? {
      var word := SplitEdge(w, code);
      hide EdgeWord, AllWord;
      ThenAssoc(word, Ch(' ', End), z);
      assert Ch(' ', End).Then(z) == Ch(' ', z);
      ThenSplits(word, Ch(' ', End));
      WordRaw(word, Ch(' ', z), 1);
      RawStep(' ', z, 1);
    }
  }

  lemma GroupText(w: Text, sig: Text, z: Text)
    ensures Ch('(', w.Then(sig.Then(Ch(')', End)))).Then(z) == Ch('(', w.Then(sig.Then(Ch(')', z))))
    ensures w.Then(sig.Then(Ch(')', z))).Take(w.Size() + sig.Size()) == w.Then(sig)
    ensures Ch('(', w.Then(sig.Then(Ch(')', End)))).Size() == w.Size() + sig.Size() + 2
  {
    GroupThen(w, sig, z);
    ThenAssoc(w, sig, Ch(')', z));
    ThenSplits(w, sig);
    ThenSplits(w.Then(sig), Ch(')', z));
    ThenSplits(w, sig.Then(Ch(')', End)));
    SizeBehind(sig, ')');
  }

  lemma GroupThen(w: Text, sig: Text, z: Text)
    ensures Ch('(', w.Then(sig.Then(Ch(')', End)))).Then(z) == Ch('(', w.Then(sig.Then(Ch(')', z))))
  {
    ThenAssoc(w, sig.Then(Ch(')', End)), z);
    ThenAssoc(sig, Ch(')', End), z);
    assert Ch(')', End).Then(z) == Ch(')', z);
  }

  lemma SizeBehind(t: Text, c: char)
    ensures t.Then(Ch(c, End)).Size() == t.Size() + 1
  {
    ThenSplits(t, Ch(c, End));
  }

  /** The control in parentheses at the start of a text. */
  lemma GroupControl(w: Text, code: char, sig: Text, name: Text, sel: Text, z: Text)
    requires EdgeWord(w, code) && Signal(sig, name, sel)
    ensures var control := Ch('(', w.Then(sig.Then(Ch(')', End))));
      EventControlAt(control.Then(z)) == Some(EventControl(code, sig, control.Size()))
  {
    hide EventControlAt, EdgeAndSig, Trim, RawEnd, SigChars, EdgeWord, Signal, Starts;
    SignalTight(sig, name, sel);
    TightNoEdge(sig);
    ExpressionRead(w, code, sig, name, sel);
    SignalRaw(sig, name, sel, z);
    WordedRaw(w, code, sig.Then(Ch(')', z)));
    GroupText(w, sig, z);
    GroupRead(Ch('(', w.Then(sig.Then(Ch(')', z)))), w.Then(sig), code, sig, w.Size() + sig.Size() + 1);
  }

  lemma GroupRead(u: Text, body: Text, code: char, sig: Text, k: nat)
    requires u.Ch? && u.head == '(' && RawEnd(u.tail, Code, 1) == Some(k) && k > 0 && u.tail.Take(k - 1) == body
    requires EdgeAndSig(Trim(body)) == Some((code, sig))
    ensures EventControlAt(u) == Some(EventControl(code, sig, 1 + k))
  {
    hide EdgeAndSig, Trim, RawEnd;
    assert TriviaEnd(u, Code) == 0 && u.Drop(0) == u;
  }

  /** `= @(posedge x) r;` becomes `= $__xz_intra_ev(1,1,x, r);`, with 2 for `negedge` and 0 for
      neither; `x` may have a select. */
  lemma EdgeEventWritten(w: Text, code: char, sig: Text, name: Text, sel: Text, r: Text, y: Text, s: State)
    requires EdgeWord(w, code) && Signal(sig, name, sel) && Value(r) && AtSemicolon(y) && s.mode == Code && Gate(s.recent)
    ensures var t := Ch('@', Ch('(', w.Then(sig.Then(Ch(')', End)))).Then(r.Then(y)));
      Image(t, s) == EventCall(Ch('1', End), code, sig, r, Image(y, AtSemi(s, t)))
  {
    hide EventControlAt, Value, Signal, EdgeWord, Image, EventCall;
    var control := Ch('(', w.Then(sig.Then(Ch(')', End))));
    SignalTight(sig, name, sel);
    LineOfGroup(w, code, sig);
    GroupControl(w, code, sig, name, sel, r.Then(y));
    EventSiteWritten(control.Then(r.Then(y)), control, EventControl(code, sig, control.Size()), r, y, s);
  }

  // ---------------------------------------------------------------- which event expressions are taken

  lemma {:induction false} NotInk(a: Text, rest: Text)
    requires AllTrimSpace(rest) && EndsInk(a.Then(rest))
    ensures rest.End?
  {
    if a.Ch? {
      if a.tail.End? && rest.Ch? { NotInk(End, rest); } else { NotInk(a.tail, rest); }
    } else if rest.Ch? && rest.tail.Ch? {
      NotInk(End, rest.tail);
    }
  }

  lemma OrBehind(t: Text)
    requires t.Ch? && Starts(t, Of(" or "))
    ensures t.tail.Ch? && t.tail.head == 'o' && Starts(t.tail, Of(" or ").tail)
  {
    assert Of(" or ").tail == From(" or ", 1) && From(" or ", 1).head == 'o';
  }

  lemma {:induction false} BlanksHaveNo(lead: Text, sig: Text)
    requires AllTrimSpace(lead) && SigChars(sig)
    ensures !Contains(lead.Then(sig), Of(" or ")) && !Contains(lead.Then(sig), Of(","))
  {
    hide Of, SigChars;
    Separators();
    if lead.End? {
      PlainHasNo(sig);
    } else {
      BlanksHaveNo(lead.tail, sig);
      if Starts(lead.Then(sig), Of(" or ")) {
        OrBehind(lead.Then(sig));
        assert lead.tail.Then(sig).head == 'o';
        assert lead.tail.End?;
        TightStarts(sig, Of(" or ").tail);
      }
    }
  }

  /** A signal behind an edge word and blanks is no list. */
  lemma EdgeHasNo(w: Text, code: char, x: Text)
    requires EdgeWord(w, code) && w.Ch? && SigChars(Trim(x)) && Trim(x).Ch? && EndsInk(w.Then(x))
    ensures !Contains(w.Then(x), Of(" or ")) && !Contains(w.Then(x), Of(","))
  {
    hide Contains, SigChars, Of;
    var lead, rest := TrimMeans(x);
    ThenAssoc(lead, Trim(x), rest);
    ThenAssoc(w, lead.Then(Trim(x)), rest);
    NotInk(w.Then(lead.Then(Trim(x))), rest);
    ThenEnd(lead.Then(Trim(x)));
    var word := SplitEdge(w, code);
    BlankChar();
    ThenAssoc(word, Ch(' ', End), x);
    assert Ch(' ', End).Then(x) == Ch(' ', lead).Then(Trim(x));
    BlanksHaveNo(Ch(' ', lead), Trim(x));
    Separators();
    WordHasNo(word, Ch(' ', x), Of(" or "));
    WordHasNo(word, Ch(' ', x), Of(","));
  }

  lemma BlankChar()
    ensures TrimSpace(' ')
  {
  }

  /** An event expression is taken exactly when the signal that it names is one, of name characters
      and square brackets: no list, no other expression and no empty one is. */
  lemma ExpressionTaken(x: Text)
    ensures EdgeAndSig(Trim(x)).Some? <==> exists edge, sig :: ExpressionSays(Trim(x), edge, sig) && sig.Ch? && SigChars(sig)
  {
    hide Contains, Trim, Of, SigChars, Starts;
    var e := Trim(x);
    if EdgeAndSig(e).Some? {
      EdgeSays(e);
    }
    if edge, sig :| ExpressionSays(e, edge, sig) && sig.Ch? && SigChars(sig) {
      var lead, rest := TrimMeans(x);
      EdgeWords();
      StartsWithWord(e, Of("posedge "));
      StartsWithWord(e, Of("negedge "));
      if Starts(e, Of("posedge ")) {
        EdgeHasNo(Of("posedge "), '1', e.Drop(8));
      } else if Starts(e, Of("negedge ")) {
        EdgeHasNo(Of("negedge "), '2', e.Drop(8));
      } else {
        PlainHasNo(e);
      }
    }
  }

  lemma PlainHasNo(sig: Text)
    requires SigChars(sig)
    ensures !Contains(sig, Of(" or ")) && !Contains(sig, Of(","))
  {
    Separators();
    TightHasNo(sig, Of(" or "));
    TightHasNo(sig, Of(","));
  }

  // ---------------------------------------------------------------- what is never written

  /** No statement without a right-hand side is rewritten. */
  lemma NeverEmpty(t: Text, s: State)
    requires SiteAt(t, s).Some?
    ensures !SiteAt(t, s).value.piece.Copy? && !IsBlank(SiteAt(t, s).value.piece.rhs)
  {
    hide DelayEnd, EventControlAt, RepeatAt, Find, Broken;
  }

  // ---------------------------------------------------------------- characters and words

  predicate Letter(c: char) {
    c in "abcdefghijklmnopqrstuvwxyz" || c in "ABCDEFGHIJKLMNOPQRSTUVWXYZ"
  }

  /** The characters of a delay or name, of a name's start, of a signal, and the brackets. */
  lemma Characters(c: char)
    ensures WordChar(c) <==> Letter(c) || c in "0123456789" || c in "_$."
    ensures NameStart(c) <==> Letter(c) || c == '_'
    ensures Space(c) <==> c in [' ', '\t', '\n', '\r', '\U{0C}']
    ensures (Opens(c) <==> c in "([{") && (Closes(c) <==> c in ")]}")
    ensures SigChars(Ch(c, End)) <==> Letter(c) || c in "0123456789" || c in "_$.[]"
  {
    hide Letter;
    LetterRange(c);
    DigitRange(c);
    assert SigChars(End);
  }

  /** The characters that trimming takes away: the 25 with the Unicode property White_Space. */
  lemma TrimmedCharacters(c: char)
    ensures TrimSpace(c) <==> c in [
      '\t', '\n', '\U{0B}', '\U{0C}', '\r', ' ', '\U{85}', '\U{A0}', '\U{1680}',
      '\U{2000}', '\U{2001}', '\U{2002}', '\U{2003}', '\U{2004}', '\U{2005}', '\U{2006}', '\U{2007}', '\U{2008}', '\U{2009}', '\U{200A}',
      '\U{2028}', '\U{2029}', '\U{202F}', '\U{205F}', '\U{3000}']
  {
  }

  lemma LetterRange(c: char)
    ensures Letter(c) <==> 'a' <= c <= 'z' || 'A' <= c <= 'Z'
  {
    LowerRange(c);
    UpperRange(c);
  }

  lemma LowerRange(c: char)
    ensures c in "abcdefghijklmnopqrstuvwxyz" <==> 'a' <= c <= 'z'
  {
  }

  lemma UpperRange(c: char)
    ensures c in "ABCDEFGHIJKLMNOPQRSTUVWXYZ" <==> 'A' <= c <= 'Z'
  {
  }

  lemma DigitRange(c: char)
    ensures c in "0123456789" <==> '0' <= c <= '9'
  {
    if '0' <= c <= '9' {
      assert c == "0123456789"[c as int - '0' as int];
    }
  }

  /** A repeat control starts with the word `repeat`, a macro definition with the directive. */
  lemma WordsMean(t: Text)
    ensures IsRepeat(t) <==> t == Of("repeat").Then(t.Drop(6))
    ensures IsDefine(t) <==> t == Of("`define").Then(t.Drop(7))
  {
    SizeFrom("repeat", 0);
    SizeFrom("`define", 0);
    StartsIff(t, Of("repeat"));
    StartsIff(t, Of("`define"));
  }

  // ---------------------------------------------------------------- where a control is looked at

  /** The significant characters after `op` has been read. */
  function Behind(r: Recent, op: string): Recent
    decreases |op|
  {
    if op == "" then r else Behind(Push(r, op[0]), op[1..])
  }

  /** The other operators of the language that end with `=`. */
  predicate OtherOperator(op: string) {
    op in {"==", "!=", ">=", "===", "!==", "+=", "-=", "*=", "/=", "%=", "&=", "|=", "^=", "<<=", ">>=", "<<<=", ">>>="}
  }

  /** After a name or a closing bracket, `=` and `<=` let a control follow, and no other operator
      that ends with `=` does. */
  lemma OnlyAssignments(r: Recent, op: string)
    requires WordChar(r.p1) || Closes(r.p1)
    ensures op == "=" || op == "<=" ==> Gate(Behind(r, op))
    ensures OtherOperator(op) ==> !Gate(Behind(r, op))
  {
    hide Behind;
    LastThree(r, op);
  }

  lemma {:induction false} LastThree(r: Recent, op: string)
    ensures |op| >= 1 ==> Behind(r, op).p1 == op[|op| - 1]
    ensures |op| >= 2 ==> Behind(r, op).p2 == op[|op| - 2]
    ensures |op| >= 3 ==> Behind(r, op).p3 == op[|op| - 3]
    ensures |op| == 0 ==> Behind(r, op) == r
    ensures |op| == 1 ==> Behind(r, op).p2 == r.p1 && Behind(r, op).p3 == r.p2
    ensures |op| == 2 ==> Behind(r, op).p3 == r.p1
    decreases |op|
  {
    if op != "" {
      LastThree(Push(r, op[0]), op[1..]);
    }
  }
}
