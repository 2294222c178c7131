/** What a rewritten event control says: the edge, the signal and the count of every event piece,
    read from the control's own text, as the simulator decodes them
    (src/compiler/simulator/processes.rs; IEEE 1800-2017 section 9.4.5). */
module DelayEvents {
  import opened Results
  import opened Texts
  import opened Lexing
  import opened IntraDelay
  import opened DelayTwice

  datatype Edge = AnyEdge | Posedge | Negedge

  /** The simulator's reading of the marker's second argument. */
  function Decoded(code: char): Edge {
    if code == '1' then Posedge else if code == '2' then Negedge else AnyEdge
  }

  /** `gap` is whitespace and comments, and `next` begins with neither. */
  predicate Gap(gap: Text, next: Text) {
    TriviaEnd(gap.Then(next), Code) == gap.Size()
  }

  /** What a trimmed event expression says: `posedge x` and `negedge x` name the edge and the
      signal, anything else is a signal with any edge. */
  ghost predicate ExpressionSays(e: Text, edge: Edge, sig: Text) {
    && (forall x :: e == Of("posedge ").Then(x) ==> edge == Posedge && sig == Trim(x))
    && (forall x :: e == Of("negedge ").Then(x) ==> edge == Negedge && sig == Trim(x))
    && ((forall x :: e != Of("posedge ").Then(x)) && (forall x :: e != Of("negedge ").Then(x)) ==> edge == AnyEdge && sig == e)
  }

  /** What follows the `@`: a name, with any edge, or an event expression in parentheses. */
  ghost predicate OperandSays(operand: Text, edge: Edge, sig: Text) {
    || (operand.Ch? && NameStart(operand.head) && AllWord(operand) && edge == AnyEdge && sig == operand)
    || exists ev: Text, c: char :: operand == Ch('(', ev.Then(Ch(c, End))) && Closes(c) && ExpressionSays(Trim(ev), edge, sig)
  }

  /** What stands in front of the `@`: nothing, for once, or a repeat count in parentheses. */
  ghost predicate LeadSays(lead: Text, count: Text) {
    || (lead == End && count == Ch('1', End))
    || exists gap: Text, c: Text, more: Text ::
         lead == Of("repeat").Then(gap.Then(Ch('(', c.Then(Ch(')', more))))) && Gap(gap, Ch('(', End)) && Gap(more, Ch('@', End))
         && count == Trim(c)
  }

  ghost predicate ControlSays(control: Text, count: Text, edge: Edge, sig: Text) {
    exists lead: Text, gap: Text, operand: Text ::
      control == lead.Then(Ch('@', gap.Then(operand))) && Gap(gap, operand)
      && LeadSays(lead, count) && OperandSays(operand, edge, sig)
  }

  /** The piece's arguments are what its control says. */
  ghost predicate Faithful(p: Piece) {
    p.Event? ==> ControlSays(p.control, p.count, Decoded(p.edge), p.sig)
  }

  ghost predicate AllFaithful(ps: Pieces) {
    ps.Cons? ==> Faithful(ps.piece) && AllFaithful(ps.rest)
  }

  // ---------------------------------------------------------------- texts that start with a word

  lemma {:induction false} StartsIff(t: Text, p: Text)
    ensures Starts(t, p) <==> t == p.Then(t.Drop(p.Size()))
  {
    if p.Ch? && t.Ch? { StartsIff(t.tail, p.tail); }
  }

  lemma EdgeWords()
    ensures Of("posedge ").Size() == 8 == Of("negedge ").Size()
    ensures Of("posedge ").Ch? && Of("posedge ").head == 'p' && Of("negedge ").Ch? && Of("negedge ").head == 'n'
  {
    SizeFrom("posedge ", 0);
    SizeFrom("negedge ", 0);
  }

  lemma NeverBoth(x: Text, y: Text)
    ensures Of("posedge ").Then(x) != Of("negedge ").Then(y)
  {
    EdgeWords();
  }

  lemma StartsWithWord(e: Text, p: Text)
    ensures Starts(e, p) ==> e == p.Then(e.Drop(p.Size()))
    ensures forall x :: e == p.Then(x) ==> Starts(e, p) && x == e.Drop(p.Size())
  {
    StartsIff(e, p);
    forall x | e == p.Then(x) ensures Starts(e, p) && x == e.Drop(p.Size()) {
      ThenSplits(p, x);
    }
  }

  lemma EdgeCases(e: Text)
    requires EdgeAndSig(e).Some?
    ensures var (code, sig) := EdgeAndSig(e).value;
      if Starts(e, Of("posedge ")) then Decoded(code) == Posedge && sig == Trim(e.Drop(8))
      else if Starts(e, Of("negedge ")) then Decoded(code) == Negedge && sig == Trim(e.Drop(8))
      else Decoded(code) == AnyEdge && sig == e
  {
    hide Starts, Contains, Trim, SigChars, Of;
  }

  lemma EdgeSays(e: Text)
    requires EdgeAndSig(e).Some?
    ensures ExpressionSays(e, Decoded(EdgeAndSig(e).value.0), EdgeAndSig(e).value.1)
  {
    hide Starts, Trim, EdgeAndSig, Decoded, Of;
    EdgeCases(e);
    StartsWithWord(e, Of("posedge "));
    StartsWithWord(e, Of("negedge "));
    EdgeWords();
    if Starts(e, Of("posedge ")) {
      forall x ensures e != Of("negedge ").Then(x) {
        NeverBoth(e.Drop(8), x);
      }
    }
  }

  // ---------------------------------------------------------------- trimming

  lemma {:induction false} TrimStartMeans(t: Text) returns (lead: Text)
    ensures t == lead.Then(TrimStart(t)) && AllTrimSpace(lead)
    ensures TrimStart(t).Ch? ==> !TrimSpace(TrimStart(t).head)
  {
    if t.Ch? && TrimSpace(t.head) {
      lead := TrimStartMeans(t.tail);
      lead := Ch(t.head, lead);
    } else {
      lead := End;
    }
  }

  /** The last character, if there is one, is no whitespace. */
  predicate EndsInk(t: Text) {
    t.End? || (if t.tail.End? then !TrimSpace(t.head) else EndsInk(t.tail))
  }

  lemma {:induction false} TrimEndMeans(t: Text) returns (rest: Text)
    ensures t == TrimEnd(t).Then(rest) && AllTrimSpace(rest) && EndsInk(TrimEnd(t))
    ensures TrimEnd(t).Ch? ==> t.Ch? && TrimEnd(t).head == t.head
  {
    if AllTrimSpace(t) {
      rest := t;
    } else {
      rest := TrimEndMeans(t.tail);
    }
  }

  /** A text is its trimmed text with whitespace around it, which itself neither starts nor ends
      with whitespace. */
  lemma TrimMeans(t: Text) returns (lead: Text, rest: Text)
    ensures t == lead.Then(Trim(t).Then(rest)) && AllTrimSpace(lead) && AllTrimSpace(rest)
    ensures Trim(t).Ch? ==> !TrimSpace(Trim(t).head) && EndsInk(Trim(t))
  {
    lead := TrimStartMeans(t);
    rest := TrimEndMeans(TrimStart(t));
  }

  // ---------------------------------------------------------------- groups and names

  lemma {:induction false} RawLast(t: Text, m: Mode, depth: nat) returns (c: char)
    requires (m == Code || InString(m)) && depth > 0 && RawEnd(t, m, depth).Some?
    ensures Closes(c) && t.Take(RawEnd(t, m, depth).value) == t.Take(RawEnd(t, m, depth).value - 1).Then(Ch(c, End))
  {
    if InString(m) {
      c := RawLast(t.tail, Next(m, t), depth);
    } else if t.head == '"' {
      c := RawLast(t.tail, Str, depth);
    } else if Closes(t.head) && depth == 1 {
      c := t.head;
      assert t.tail.Take(0) == End;
    } else {
      c := RawLast(t.tail, Code, if Opens(t.head) then depth + 1 else if Closes(t.head) then depth - 1 else depth);
    }
  }

  lemma {:induction false} ParenLast(t: Text, depth: nat)
    requires depth > 0 && ParenEnd(t, depth).Some?
    ensures t.Take(ParenEnd(t, depth).value) == t.Take(ParenEnd(t, depth).value - 1).Then(Ch(')', End))
  {
    if t.head == ')' && depth == 1 {
      assert t.tail.Take(0) == End;
    } else {
      ParenLast(t.tail, if t.head == '(' then depth + 1 else if t.head == ')' then depth - 1 else depth);
    }
  }

  lemma {:induction false} WordIsAll(t: Text)
    ensures AllWord(t.Take(WordEnd(t)))
  {
    if t.Ch? && WordChar(t.head) { WordIsAll(t.tail); }
  }

  lemma EventOperandSays(u: Text)
    requires EventOperand(u).Some?
    ensures var e := EventOperand(u).value;
      OperandSays(u.Take(e.ctl), Decoded(e.edge), e.sig)
  {
    hide Trim, EdgeAndSig, Decoded;
    if u.head == '(' {
      var k := RawEnd(u.tail, Code, 1).value;
      var c := RawLast(u.tail, Code, 1);
      var ev := u.tail.Take(k - 1);
      EdgeSays(Trim(ev));
      assert u.Take(1 + k) == Ch('(', ev.Then(Ch(c, End)));
    } else {
      WordIsAll(u);
      NameSays(u);
    }
  }

  lemma NameSays(u: Text)
    requires EventOperand(u).Some? && u.head != '('
    ensures var e := EventOperand(u).value;
      Decoded(e.edge) == AnyEdge && e.sig == u.Take(e.ctl) && e.ctl == WordEnd(u) > 0 && NameStart(u.head)
  {
  }

  /** Whitespace and comments end in the same place whatever non-blank text follows them. */
  lemma {:induction false} GapBefore(t: Text, m: Mode, y: Text)
    requires !InString(m) && y.Ch? && y.head != '/' && !Space(y.head)
    requires t.Drop(TriviaEnd(t, m)).Ch?
    ensures TriviaEnd(t.Take(TriviaEnd(t, m)).Then(y), m) == TriviaEnd(t, m)
  {
    var n := TriviaEnd(t, m);
    if n > 0 {
      GapStep(t, m, y);
      GapBefore(t.tail, Next(m, t), y);
    } else {
      assert m == Code;
    }
  }

  lemma GapStep(t: Text, m: Mode, y: Text)
    requires !InString(m) && TriviaEnd(t, m) > 0 && y.Ch? && y.head != '/' && t.Drop(TriviaEnd(t, m)).Ch?
    ensures var u := t.Take(TriviaEnd(t, m)).Then(y);
      u.Ch? && u.head == t.head && u.tail == t.tail.Take(TriviaEnd(t.tail, Next(m, t))).Then(y)
      && Next(m, u) == Next(m, t) && (m == Code ==> CommentStart(u) == CommentStart(t))
  {
  }

  lemma {:induction false} TakeMore(t: Text, a: nat, b: nat)
    ensures t.Take(a + b) == t.Take(a).Then(t.Drop(a).Take(b))
  {
    if a > 0 && t.Ch? { TakeMore(t.tail, a - 1, b); }
  }

  /** The text after an `@`, up to the end of its operand: whitespace and comments, then the operand. */
  lemma ControlParts(t: Text)
    requires EventControlAt(t).Some?
    ensures var e, j := EventControlAt(t).value, TriviaEnd(t, Code);
      && j <= e.ctl && t.Take(e.ctl) == t.Take(j).Then(t.Drop(j).Take(e.ctl - j))
      && Gap(t.Take(j), t.Drop(j).Take(e.ctl - j))
      && OperandSays(t.Drop(j).Take(e.ctl - j), Decoded(e.edge), e.sig)
  {
    var j := TriviaEnd(t, Code);
    var u := t.Drop(j);
    var k := EventOperand(u).value.ctl;
    hide OperandSays, TriviaEnd;
    EventOperandSays(u);
    OperandHead(u);
    TakeMore(t, j, k);
    GapBefore(t, Code, u.Take(k));
    DropSize(t, j);
  }

  lemma OperandHead(u: Text)
    requires EventOperand(u).Some?
    ensures u.Ch? && u.Take(EventOperand(u).value.ctl).Ch? && u.Take(EventOperand(u).value.ctl).head == u.head
    ensures u.head != '/' && !Space(u.head)
  {
    hide EdgeAndSig, Trim;
  }

  /** The text of a repeat control up to its `@`. */
  lemma LeadText(t: Text, j: nat, k: nat, g: nat)
    requires IsRepeat(t) && RepeatAt(t).Some?
    requires var u := t.Drop(6);
      j == TriviaEnd(u, Code) && u.Drop(j).Ch? && ParenEnd(u.Drop(j).tail, 1) == Some(k)
      && g == TriviaEnd(u.Drop(j).tail.Drop(k), Code)
    ensures var u := t.Drop(6);
      var v := u.Drop(j);
      && k > 0 && RepeatAt(t) == Some((Trim(v.tail.Take(k - 1)), 6 + (j + (1 + k + g))))
      && t.Take(6 + (j + (1 + k + g)))
         == Of("repeat").Then(u.Take(j).Then(Ch('(', v.tail.Take(k - 1).Then(Ch(')', v.tail.Drop(k).Take(g))))))
  {
    hide Trim, SigChars;
    var u := t.Drop(6);
    CountParts(u.Drop(j));
    RepeatWord();
    StartsIff(t, Of("repeat"));
    TakeMore(t, 6, j + (1 + k + g));
    TakeMore(u, j, 1 + k + g);
    ThenSplits(Of("repeat"), u);
  }

  lemma RepeatGaps(t: Text) returns (j: nat, k: nat, g: nat)
    requires IsRepeat(t) && RepeatAt(t).Some?
    ensures var u := t.Drop(6);
      && j == TriviaEnd(u, Code) && u.Drop(j).Ch? && ParenEnd(u.Drop(j).tail, 1) == Some(k)
      && g == TriviaEnd(u.Drop(j).tail.Drop(k), Code)
      && Gap(u.Take(j), Ch('(', End)) && Gap(u.Drop(j).tail.Drop(k).Take(g), Ch('@', End))
  {
    hide Trim, SigChars;
    var u := t.Drop(6);
    j := TriviaEnd(u, Code);
    k := ParenEnd(u.Drop(j).tail, 1).value;
    var w := u.Drop(j).tail.Drop(k);
    g := TriviaEnd(w, Code);
    CountParts(u.Drop(j));
    GapBefore(u, Code, Ch('(', End));
    GapBefore(w, Code, Ch('@', End));
    DropSize(u, j);
    DropSize(w, g);
  }

  /** A repeat control up to its `@`: the word, a count in parentheses, and gaps. */
  lemma LeadParts(t: Text)
    requires IsRepeat(t) && RepeatAt(t).Some?
    ensures var (count, at) := RepeatAt(t).value;
      LeadSays(t.Take(at), count) && t.Drop(at).Ch? && t.Drop(at).head == '@'
  {
    hide Trim, IsRepeat, RepeatAt, TriviaEnd, ParenEnd, Gap, Of;
    RepeatStart(t);
    var j, k, g := RepeatGaps(t);
    LeadText(t, j, k, g);
    var u := t.Drop(6);
    var gap, c, more := u.Take(j), u.Drop(j).tail.Take(k - 1), u.Drop(j).tail.Drop(k).Take(g);
    assert t.Take(RepeatAt(t).value.1) == Of("repeat").Then(gap.Then(Ch('(', c.Then(Ch(')', more)))));
  }

  /** The count's parentheses and the gap behind them. */
  lemma CountParts(v: Text)
    requires AfterCount(v).Some?
    ensures v.Ch? && v.head == '(' && ParenEnd(v.tail, 1).Some?
    ensures var k := ParenEnd(v.tail, 1).value;
      var w := v.tail.Drop(k);
      && AfterCount(v) == Some(1 + k + TriviaEnd(w, Code)) && w.Drop(TriviaEnd(w, Code)).Ch? && w.Drop(TriviaEnd(w, Code)).head == '@'
      && v.Take(1 + k + TriviaEnd(w, Code)) == Ch('(', v.tail.Take(k - 1).Then(Ch(')', w.Take(TriviaEnd(w, Code)))))
  {
    var k := ParenEnd(v.tail, 1).value;
    var w := v.tail.Drop(k);
    var g := TriviaEnd(w, Code);
    ParenLast(v.tail, 1);
    TakeMore(v.tail, k, g);
    ThenAssoc(v.tail.Take(k - 1), Ch(')', End), w.Take(g));
    assert Ch(')', End).Then(w.Take(g)) == Ch(')', w.Take(g));
    hide TriviaEnd, ParenEnd;
  }

  /** The event control of a site, put together. */
  lemma SitePieceSays(t: Text, at: nat, count: Text, inDef: bool)
    requires EventSite(t, at, count, inDef).Some? && LeadSays(t.Take(at), count)
    requires t.Drop(at).Ch? && t.Drop(at).head == '@'
    ensures Faithful(EventSite(t, at, count, inDef).value.piece)
  {
    hide EventControlAt, RhsEnd, Broken, LeadSays, OperandSays, Gap, Decoded, TriviaEnd, EventSite, ControlSays;
    var u := t.Drop(at + 1);
    PieceIs(t, at, count, inDef);
    var e, j := EventControlAt(u).value, TriviaEnd(u, Code);
    ControlParts(u);
    ControlTaken(t, at, e.ctl);
    Assembled(t.Take(at), u.Take(j), u.Drop(j).Take(e.ctl - j), count, Decoded(e.edge), e.sig);
  }

  lemma Assembled(lead: Text, gap: Text, operand: Text, count: Text, edge: Edge, sig: Text)
    requires Gap(gap, operand) && LeadSays(lead, count) && OperandSays(operand, edge, sig)
    ensures ControlSays(lead.Then(Ch('@', gap.Then(operand))), count, edge, sig)
  {
    hide Gap, LeadSays, OperandSays;
  }

  lemma PieceIs(t: Text, at: nat, count: Text, inDef: bool)
    requires EventSite(t, at, count, inDef).Some?
    ensures EventControlAt(t.Drop(at + 1)).Some?
    ensures var p, e := EventSite(t, at, count, inDef).value.piece, EventControlAt(t.Drop(at + 1)).value;
      p.Event? && p.control == t.Take(at + 1 + e.ctl) && p.count == count && p.edge == e.edge && p.sig == e.sig
  {
    hide EventControlAt, RhsEnd, Broken;
  }

  lemma ControlTaken(t: Text, at: nat, n: nat)
    requires t.Drop(at).Ch? && t.Drop(at).head == '@'
    ensures t.Take(at + 1 + n) == t.Take(at).Then(Ch('@', t.Drop(at + 1).Take(n)))
  {
    DropMore(t, at, 1);
    assert t.Drop(at).Drop(1) == t.Drop(at).tail;
    TakeMore(t, at, 1 + n);
  }

  /** A rewritten event statement is written with the count, edge and signal of its control. */
  lemma SiteFaithful(t: Text, s: State)
    requires SiteAt(t, s).Some?
    ensures Faithful(SiteAt(t, s).value.piece)
  {
    hide EventSite, DelaySite, RepeatAt, LeadSays, ControlSays;
    if EventStart(t).Some? {
      var (count, at) := EventStart(t).value;
      if t.head == '@' {
        AloneSays(t);
      } else {
        LeadParts(t);
      }
      SitePieceSays(t, at, count, DefNow(s, t));
    } else {
      NoEvent(t, DefNow(s, t));
    }
  }

  lemma AloneSays(t: Text)
    requires t.Ch? && t.head == '@'
    ensures LeadSays(t.Take(0), Of("1")) && t.Drop(0) == t
  {
    assert Of("1") == Ch('1', End);
  }

  lemma NoEvent(t: Text, inDef: bool)
    requires HashLength(t) > 0
    ensures var u := if HashLength(t) == 2 then t.tail.tail else t.tail;
      DelaySite(t, u, HashLength(t), inDef).Some? ==> !DelaySite(t, u, HashLength(t), inDef).value.piece.Event?
  {
  }

  /** So are all of a text. */
  lemma {:induction false} ScanFaithful(t: Text, s: State)
    ensures AllFaithful(Scan(t, s))
    decreases t.Size()
  {
    hide SiteAt, Faithful;
    if t.Ch? {
      if SiteAt(t, s).Some? {
        SiteFaithful(t, s);
        SiteShrinks(t, s);
        ScanFaithful(t.Drop(SiteAt(t, s).value.semi), AtSemi(s, t));
      } else {
        CopyFaithful(t.head);
        ScanFaithful(t.tail, After(s, t));
      }
    }
  }

  lemma CopyFaithful(c: char)
    ensures Faithful(Copy(c))
  {
  }
}
