/** The pass runs twice on a design, on the raw and on the preprocessed text. Where the brackets
    of the rewritten statements match, its own output changes in the second run exactly if some
    marker call, read by itself, does. */
module DelayTwice {
  import opened Results
  import opened Texts
  import opened Lexing
  import opened IntraDelay

  // --------------------------------------------------------------- tidy sources

  /** Reading `w` closes the outermost of `depth` open brackets at its last character. */
  predicate Balanced(w: Text, m: Mode, depth: nat) {
    && w.Ch? && depth > 0
    && if Plain(m, w) && Closes(w.head) && depth == 1 then w.tail.End?
       else Balanced(w.tail, Next(m, w), Deeper(m, w, depth))
  }

  /** The same, with comments only where at most `loose` brackets are open. */
  predicate Enclosed(w: Text, m: Mode, depth: nat, loose: nat) {
    && w.Ch? && depth > 0
    && !(m == Code && CommentStart(w) && depth > loose)
    && if Plain(m, w) && Closes(w.head) && depth == 1 then w.tail.End?
       else Enclosed(w.tail, Next(m, w), Deeper(m, w, depth), loose)
  }

  /** `n` characters are copied in code, and no gate is open behind them. */
  predicate Calm(t: Text, s: State, n: nat) {
    Copied(t, s, n) && Through(t, s, n).mode == Code && !Gate(Through(t, s, n).recent)
  }

  /** A refused delay: if parenthesised, its group is closed by a parenthesis that is code, and
      nothing in it is rewritten. */
  predicate TidyOperand(u: Text, s: State) {
    u.Ch? && u.head == '(' ==>
      RawEnd(u.tail, Code, 1).Some? && Calm(u, s, 1 + RawEnd(u.tail, Code, 1).value)
  }

  predicate TidyDelay(t: Text, s: State) {
    var j := TriviaEnd(t, Code);
    TidyOperand(t.Drop(j), Through(t, s, j))
  }

  /** The same for the count of a refused repeat control. */
  predicate TidyCount(v: Text, s: State) {
    v.Ch? && v.head == '(' ==>
      ParenEnd(v.tail, 1).Some? && Calm(v, s, 1 + ParenEnd(v.tail, 1).value)
  }

  /** `u` is the text after `repeat`. */
  predicate TidyRepeat(u: Text, s: State) {
    var j := TriviaEnd(u, Code);
    TidyCount(u.Drop(j), Through(u, s, j))
  }

  /** The refused control at the start of `t`, if any, is tidy; an event control without a count
      always is. */
  predicate TidyControl(t: Text, s: State) {
    if t.Ch? && t.head == '@' then true
    else if IsRepeat(t) then TidyRepeat(t.Drop(6), Through(t, s, 6))
    else if HashLength(t) > 0 then TidyDelay(t.Drop(HashLength(t)), Through(t, s, HashLength(t)))
    else true
  }

  predicate Control(w: Text) {
    w.Ch? && (w.head == '@' || w.head == '#' || IsRepeat(w))
  }

  /** A repeat control's parentheses match as its brackets do. */
  predicate Paired(w: Text) {
    var v := w.Drop(6).Drop(TriviaEnd(w.Drop(6), Code));
    IsRepeat(w) && v.Ch? && v.head == '(' ==> ParenEnd(v.tail, 1) == RawEnd(v.tail, Code, 1)
  }

  /** The significant characters behind the first one of `w`. */
  function Seen(r: Recent, m: Mode, w: Text): Recent
    requires w.Ch?
  {
    if Plain(m, w) && !Space(w.head) then Push(r, w.head)
    else if m == Str && Next(m, w) == Code then Push(r, '"')
    else r
  }

  /** From a control directly after an assignment operator on, `w` has comments only outside the
      brackets opened there. */
  predicate Legible(w: Text, m: Mode, r: Recent, depth: nat) {
    w.End? || depth == 0 ||
    (&& (Plain(m, w) && Gate(r) && Control(w) ==> Enclosed(w, Code, depth, depth) && Paired(w))
     && Legible(w.tail, Next(m, w), Seen(r, m, w), Deeper(m, w, depth)))
  }

  const SEMI := Ch(';', End)
  const CALL_CLOSE := Ch(')', End)
  const CALL_OPEN := Recent('(', ' ', ' ')

  /** The brackets of a rewritten statement tail match: read as code it ends at its own `;`, and
      written as a call at the call's own parenthesis. */
  predicate TidyPiece(p: Piece) {
    !p.Copy? ==>
      && Find(Source(p, SEMI), Code, 0) == Some(Source(p, End).Size())
      && Balanced(Args(p, CALL_CLOSE), Code, 1)
      && Legible(Args(p, CALL_CLOSE), Code, CALL_OPEN, 1)
  }

  /** Every rewritten statement tail is tidy, and so is every refused control directly after an
      assignment operator. */
  predicate Tidy(t: Text, s: State)
    decreases t.Size()
  {
    t.End? ||
    match SiteAt(t, s)
    case Some(site) =>
      SiteAdvances(t, s.recent, DefNow(s, t));
      DropShrinks(t, site.semi);
      TidyPiece(site.piece) && Tidy(t.Drop(site.semi), AtSemi(s, t))
    case None =>
      (Plain(s.mode, t) && Gate(s.recent) ==> TidyControl(t, s)) && Tidy(t.tail, After(s, t))
  }

  /** No marker call, read by itself in the state in which the second pass reaches it, offers that
      pass a site. The passes are in states `s` and `u`. */
  predicate Inert(t: Text, s: State, u: State)
    decreases t.Size()
  {
    t.End? ||
    match SiteAt(t, s)
    case Some(site) =>
      SiteAdvances(t, s.recent, DefNow(s, t));
      DropShrinks(t, site.semi);
      var call := Show(site.piece, End);
      Copied(call, u, call.Size()) && Inert(t.Drop(site.semi), AtSemi(s, t), Through(call, u, call.Size()))
    case None => Inert(t.tail, After(s, t), After(u, t))
  }

  /** No code of `w` is a `;`. */
  predicate NoSemi(w: Text, m: Mode) {
    w.End? || (!(Plain(m, w) && w.head == ';') && NoSemi(w.tail, Next(m, w)))
  }

  /** No written argument has a `;`. */
  predicate SemiFree(t: Text, s: State)
    decreases t.Size()
  {
    t.End? ||
    match SiteAt(t, s)
    case Some(site) =>
      SiteAdvances(t, s.recent, DefNow(s, t));
      DropShrinks(t, site.semi);
      (!site.piece.Copy? ==> NoSemi(Args(site.piece, CALL_CLOSE), Code)) && SemiFree(t.Drop(site.semi), AtSemi(s, t))
    case None => SemiFree(t.tail, After(s, t))
  }

  // --------------------------------------------------- reading a bracketed stretch

  /** What follows a balanced stretch does not change how its first character reads. */
  lemma BalancedHead(w: Text, y: Text, m: Mode, depth: nat)
    requires Balanced(w, m, depth)
    ensures w.Then(y).Ch? && w.Then(y).head == w.head && w.Then(y).tail == w.tail.Then(y)
    ensures CommentStart(w.Then(y)) == CommentStart(w)
    ensures Next(m, w.Then(y)) == Next(m, w) && Plain(m, w.Then(y)) == Plain(m, w)
    ensures Deeper(m, w.Then(y), depth) == Deeper(m, w, depth)
  {
  }

  lemma {:induction false} EnclosedBalanced(w: Text, m: Mode, depth: nat, loose: nat)
    requires Enclosed(w, m, depth, loose)
    ensures Balanced(w, m, depth)
  {
    if !(Plain(m, w) && Closes(w.head) && depth == 1) {
      EnclosedBalanced(w.tail, Next(m, w), Deeper(m, w, depth), loose);
    }
  }

  lemma EnclosedHead(w: Text, y: Text, m: Mode, depth: nat, loose: nat)
    requires Enclosed(w, m, depth, loose)
    ensures w.Then(y).Ch? && w.Then(y).head == w.head && w.Then(y).tail == w.tail.Then(y)
    ensures CommentStart(w.Then(y)) == CommentStart(w)
    ensures Next(m, w.Then(y)) == Next(m, w) && Plain(m, w.Then(y)) == Plain(m, w)
  {
    EnclosedBalanced(w, m, depth, loose);
    BalancedHead(w, y, m, depth);
  }

  /** Looking for a `;` inside a balanced stretch does not leave it. */
  lemma {:induction false} BalancedFind(w: Text, y: Text, m: Mode, depth: nat, open: nat)
    requires Balanced(w, m, depth) && open < depth
    ensures Find(w.Then(y), m, open) == Find(w, m, open)
    ensures Find(w, m, open).Some? ==> Find(w, m, open).value < w.Size()
    ensures NoSemi(w, m) ==> Find(w, m, open).None?
  {
    BalancedHead(w, y, m, depth);
    if !(Plain(m, w) && open == 0 && (Closes(w.head) || w.head == ';')) {
      BalancedFind(w.tail, y, Next(m, w), Deeper(m, w, depth), Deeper(m, w, open));
    }
  }

  /** From outside it, the brackets it closes are the ones that were open. */
  lemma {:induction false} BalancedWalk(w: Text, y: Text, m: Mode, depth: nat, outer: nat)
    requires Balanced(w, m, depth)
    ensures Find(w.Then(y), m, depth + outer) == Plus(w.Size(), Find(y, Code, outer))
  {
    BalancedHead(w, y, m, depth);
    if !(Plain(m, w) && Closes(w.head) && depth == 1) {
      BalancedWalk(w.tail, y, Next(m, w), Deeper(m, w, depth), outer);
    }
  }

  /** A stretch read up to a `;` at its own level leaves the bracket depth as it was. */
  lemma {:induction false} LevelWalk(w: Text, y: Text, m: Mode, depth: nat, outer: nat)
    requires Find(w.Then(SEMI), m, depth) == Some(w.Size()) && y.Ch? && y.head == ';'
    ensures Find(w.Then(y), m, depth + outer) == Plus(w.Size(), Find(y, Code, outer))
  {
    hide Find;
    if w.Ch? {
      LevelStep(w, y, m, depth, outer);
      LevelWalk(w.tail, y, Next(m, w), Deeper(m, w, depth), outer);
    } else {
      LevelEnd(y, m, depth, outer);
    }
  }

  lemma LevelEnd(y: Text, m: Mode, depth: nat, outer: nat)
    requires Find(SEMI, m, depth) == Some(0)
    ensures Find(y, m, depth + outer) == Plus(0, Find(y, Code, outer))
  {
  }

  lemma LevelStep(w: Text, y: Text, m: Mode, depth: nat, outer: nat)
    requires w.Ch? && Find(w.Then(SEMI), m, depth) == Some(w.Size()) && y.Ch? && y.head == ';'
    ensures Deeper(m, w, depth) >= 0
    ensures Find(w.tail.Then(SEMI), Next(m, w), Deeper(m, w, depth)) == Some(w.tail.Size())
    ensures Find(w.Then(y), m, depth + outer)
         == Plus(1, Find(w.tail.Then(y), Next(m, w), Deeper(m, w, depth) + outer))
  {
    LevelHead(w, y, m);
    FindStep(w.Then(SEMI), m, depth);
    FindStep(w.Then(y), m, depth + outer);
  }

  lemma FindStep(t: Text, m: Mode, depth: nat)
    requires t.Ch? && !(Plain(m, t) && depth == 0 && (Closes(t.head) || t.head == ';'))
    ensures Deeper(m, t, depth) >= 0 && Find(t, m, depth) == Plus(1, Find(t.tail, Next(m, t), Deeper(m, t, depth)))
  {
  }

  lemma LevelHead(w: Text, y: Text, m: Mode)
    requires w.Ch? && y.Ch? && y.head == ';'
    ensures CommentStart(w.Then(y)) == CommentStart(w) == CommentStart(w.Then(SEMI))
    ensures Next(m, w.Then(y)) == Next(m, w) == Next(m, w.Then(SEMI))
  {
  }

  predicate AllWord(p: Text) {
    p.End? || (WordChar(p.head) && AllWord(p.tail))
  }

  /** What an enclosed stretch starts with, read from inside: its first `k` characters, all code
      at its own bracket level. */
  predicate Within(w: Text, y: Text, k: nat, m: Mode, depth: nat, loose: nat) {
    && w.Then(y).Drop(k) == w.Drop(k).Then(y) && k < w.Size()
    && Enclosed(w.Drop(k), Code, depth, loose)
    && (NoSemi(w, m) ==> NoSemi(w.Drop(k), Code))
  }

  lemma WithinMore(w: Text, y: Text, j: nat, k: nat, m: Mode, depth: nat, loose: nat)
    requires Within(w, y, j, m, depth, loose) && Within(w.Drop(j), y, k, Code, depth, loose)
    ensures Within(w, y, j + k, m, depth, loose)
  {
    DropMore(w, j, k);
    DropMore(w.Then(y), j, k);
    DropSize(w, j);
  }

  lemma {:induction false} EnclosedTrivia(w: Text, y: Text, m: Mode, depth: nat, loose: nat)
    requires Enclosed(w, m, depth, loose) && !InString(m)
    ensures TriviaEnd(w.Then(y), m) == TriviaEnd(w, m)
    ensures Within(w, y, TriviaEnd(w, m), m, depth, loose)
  {
    EnclosedHead(w, y, m, depth, loose);
    if m != Code || CommentStart(w) || Space(w.head) {
      EnclosedTrivia(w.tail, y, Next(m, w), depth, loose);
    }
  }

  lemma {:induction false} EnclosedWord(w: Text, y: Text, depth: nat, loose: nat)
    requires Enclosed(w, Code, depth, loose)
    ensures WordEnd(w.Then(y)) == WordEnd(w)
    ensures Within(w, y, WordEnd(w), Code, depth, loose)
  {
    EnclosedHead(w, y, Code, depth, loose);
    if WordChar(w.head) { EnclosedWord(w.tail, y, depth, loose); }
  }

  /** A raw group scan inside an enclosed stretch ends inside it. */
  lemma {:induction false} EnclosedRaw(w: Text, y: Text, m: Mode, depth: nat, loose: nat, open: nat)
    requires (m == Code || InString(m)) && (open == 0 ==> m == Code)
    requires Enclosed(w, m, depth + open, loose) && 0 < depth && loose <= depth
    ensures RawEnd(w.Then(y), m, open) == RawEnd(w, m, open) && RawEnd(w, m, open).Some?
    ensures Within(w, y, RawEnd(w, m, open).value, m, depth, loose)
  {
    if open > 0 {
      EnclosedHead(w, y, m, depth + open, loose);
      if InString(m) || w.head == '"' {
        EnclosedRaw(w.tail, y, Next(m, w), depth, loose, open);
      } else {
        EnclosedRaw(w.tail, y, Code, depth, loose, Deeper(m, w, open));
      }
    }
  }

  /** One code character that is no bracket. */
  lemma WithinOne(w: Text, y: Text, depth: nat, loose: nat)
    requires Enclosed(w, Code, depth, loose) && Plain(Code, w) && !Opens(w.head) && !Closes(w.head)
    ensures Within(w, y, 1, Code, depth, loose) && w.Drop(1) == w.tail
  {
    assert w.tail.Then(y).Drop(0) == w.tail.Then(y) && w.tail.Drop(0) == w.tail;
  }

  lemma EnclosedOperand(w: Text, y: Text, depth: nat, loose: nat)
    requires Enclosed(w, Code, depth, loose) && loose <= depth
    ensures OperandEnd(w.Then(y)) == OperandEnd(w)
    ensures OperandEnd(w).Some? ==> Within(w, y, OperandEnd(w).value, Code, depth, loose)
  {
    EnclosedHead(w, y, Code, depth, loose);
    if w.head == '(' {
      EnclosedRaw(w.tail, y, Code, depth, loose, 1);
    } else {
      EnclosedWord(w, y, depth, loose);
    }
  }

  lemma EnclosedControl(w: Text, y: Text, depth: nat, loose: nat)
    requires Enclosed(w, Code, depth, loose) && loose <= depth
    ensures DelayEnd(w.Then(y)) == DelayEnd(w)
    ensures DelayEnd(w).Some? ==> Within(w, y, DelayEnd(w).value, Code, depth, loose)
  {
    hide Enclosed, OperandEnd, TriviaEnd, NoSemi;
    var j := TriviaEnd(w, Code);
    EnclosedTrivia(w, y, Code, depth, loose);
    EnclosedOperand(w.Drop(j), y, depth, loose);
    if OperandEnd(w.Drop(j)).Some? { WithinMore(w, y, j, OperandEnd(w.Drop(j)).value, Code, depth, loose); }
  }

  lemma {:induction false} ThenTake(w: Text, y: Text, n: nat)
    requires n <= w.Size()
    ensures w.Then(y).Take(n) == w.Take(n)
  {
    if n > 0 { ThenTake(w.tail, y, n - 1); }
  }

  /** A right-hand side that starts inside a balanced stretch ends there or is refused. */
  lemma BalancedRhs(w: Text, y: Text, depth: nat)
    requires Balanced(w, Code, depth)
    ensures RhsEnd(w.Then(y)) == RhsEnd(w) && (RhsEnd(w).Some? ==> RhsEnd(w).value < w.Size())
    ensures NoSemi(w, Code) ==> RhsEnd(w).None?
  {
    BalancedFind(w, y, Code, depth, 0);
    if Find(w, Code, 0).Some? { ThenTake(w, y, Find(w, Code, 0).value); }
  }

  lemma EnclosedEventOperand(w: Text, y: Text, depth: nat, loose: nat)
    requires Enclosed(w, Code, depth, loose) && loose <= depth
    ensures EventOperand(w.Then(y)) == EventOperand(w)
  {
    hide Trim, EdgeAndSig;
    EnclosedHead(w, y, Code, depth, loose);
    if w.head == '(' {
      EnclosedRaw(w.tail, y, Code, depth, loose, 1);
      ThenTake(w.tail, y, RawEnd(w.tail, Code, 1).value - 1);
    } else {
      EnclosedWord(w, y, depth, loose);
      ThenTake(w, y, WordEnd(w));
    }
  }

  lemma OperandIsEvent(u: Text)
    requires EventOperand(u).Some?
    ensures OperandEnd(u) == Some(EventOperand(u).value.ctl)
  {
  }

  lemma EventControlEnd(t: Text)
    requires EventControlAt(t).Some?
    ensures DelayEnd(t) == Some(EventControlAt(t).value.ctl)
  {
    hide EventOperand, OperandEnd, TriviaEnd;
    OperandIsEvent(t.Drop(TriviaEnd(t, Code)));
  }

  lemma EnclosedEvent(w: Text, y: Text, depth: nat, loose: nat)
    requires Enclosed(w, Code, depth, loose) && loose <= depth
    ensures EventControlAt(w.Then(y)) == EventControlAt(w)
    ensures EventControlAt(w).Some? ==> Within(w, y, EventControlAt(w).value.ctl, Code, depth, loose)
  {
    hide Enclosed, EventOperand, TriviaEnd, NoSemi;
    EnclosedTrivia(w, y, Code, depth, loose);
    EnclosedEventOperand(w.Drop(TriviaEnd(w, Code)), y, depth, loose);
    if EventControlAt(w).Some? {
      EventControlEnd(w);
      EnclosedControl(w, y, depth, loose);
    }
  }

  lemma {:induction false} EnclosedStarts(w: Text, y: Text, p: Text, depth: nat, loose: nat)
    requires Enclosed(w, Code, depth, loose) && AllWord(p)
    ensures Starts(w.Then(y), p) == Starts(w, p)
    ensures Starts(w, p) ==> Within(w, y, p.Size(), Code, depth, loose)
  {
    EnclosedHead(w, y, Code, depth, loose);
    if p.Ch? && w.head == p.head {
      EnclosedStarts(w.tail, y, p.tail, depth, loose);
    }
  }

  lemma RepeatWord()
    ensures AllWord(Of("repeat")) && Of("repeat").Size() == 6
    ensures Of("repeat").Ch? && Of("repeat").head == 'r' && Of("repeat").tail == Of("epeat")
    ensures AllWord(Of("epeat")) && Of("epeat").Size() == 5
  {
    SizeFrom("repeat", 0);
    SizeFrom("epeat", 0);
    SameTail("repeat", "epeat", 0);
    WordFrom("repeat", 0);
    WordFrom("epeat", 0);
  }

  lemma {:induction false} SameTail(a: string, b: string, i: nat)
    requires |a| == |b| + 1 && i <= |b| && forall k :: 0 <= k < |b| ==> a[k + 1] == b[k]
    ensures From(a, i + 1) == From(b, i)
    decreases |b| - i
  {
    if i < |b| { SameTail(a, b, i + 1); }
  }

  lemma {:induction false} WordFrom(s: string, i: nat)
    requires i <= |s| && forall k :: 0 <= k < |s| ==> WordChar(s[k])
    ensures AllWord(From(s, i))
    decreases |s| - i
  {
    if i < |s| { WordFrom(s, i + 1); }
  }

  lemma {:induction false} RawShared(t: Text, T: Text, m: Mode, depth: nat)
    requires (m == Code || InString(m)) && RawEnd(t, m, depth).Some?
    requires T.Take(RawEnd(t, m, depth).value) == t.Take(RawEnd(t, m, depth).value)
    ensures RawEnd(T, m, depth) == RawEnd(t, m, depth)
  {
    if depth > 0 {
      if InString(m) {
        RawShared(t.tail, T.tail, Next(m, t), depth);
      } else if t.head == '"' {
        RawShared(t.tail, T.tail, Str, depth);
      } else {
        RawShared(t.tail, T.tail, Code, if Opens(t.head) then depth + 1 else if Closes(t.head) then depth - 1 else depth);
      }
    }
  }

  lemma {:induction false} ParenShared(t: Text, T: Text, depth: nat)
    requires ParenEnd(t, depth).Some?
    requires T.Take(ParenEnd(t, depth).value) == t.Take(ParenEnd(t, depth).value)
    ensures ParenEnd(T, depth) == ParenEnd(t, depth)
  {
    if depth > 0 {
      ParenShared(t.tail, T.tail, if t.head == '(' then depth + 1 else if t.head == ')' then depth - 1 else depth);
    }
  }

  /** The offset of the `@` after trivia inside an enclosed stretch. */
  lemma EnclosedAtSign(w: Text, y: Text, depth: nat, loose: nat)
    requires Enclosed(w, Code, depth, loose)
    ensures AtOffset(w.Then(y)) == AtOffset(w)
    ensures AtOffset(w).Some? ==> Within(w, y, AtOffset(w).value, Code, depth, loose)
  {
    EnclosedTrivia(w, y, Code, depth, loose);
    EnclosedHead(w.Drop(TriviaEnd(w, Code)), y, Code, depth, loose);
  }

  /** The same after a count whose parentheses match. */
  lemma EnclosedCount(v: Text, y: Text, depth: nat, loose: nat)
    requires Enclosed(v, Code, depth, loose) && loose <= depth
    requires v.head == '(' ==> ParenEnd(v.tail, 1) == RawEnd(v.tail, Code, 1)
    ensures AfterCount(v.Then(y)) == AfterCount(v)
    ensures AfterCount(v).Some? ==> Within(v, y, AfterCount(v).value, Code, depth, loose)
  {
    hide AtOffset, NoSemi;
    EnclosedHead(v, y, Code, depth, loose);
    if v.head == '(' {
      EnclosedOperand(v, y, depth, loose);
      EnclosedRaw(v.tail, y, Code, depth, loose, 1);
      var k := RawEnd(v.tail, Code, 1).value;
      ThenTake(v.tail, y, k);
      ParenShared(v.tail, v.tail.Then(y), 1);
      assert v.Drop(1 + k) == v.tail.Drop(k);
      EnclosedAtSign(v.tail.Drop(k), y, depth, loose);
      if AtOffset(v.tail.Drop(k)).Some? {
        WithinMore(v, y, 1 + k, AtOffset(v.tail.Drop(k)).value, Code, depth, loose);
      }
    }
  }

  lemma EnclosedRepeat(w: Text, y: Text, depth: nat, loose: nat)
    requires Enclosed(w, Code, depth, loose) && loose <= depth && IsRepeat(w) && Paired(w)
    ensures IsRepeat(w.Then(y)) && (RepeatAt(w.Then(y)).Some? <==> RepeatAt(w).Some?)
    ensures RepeatAt(w).Some? ==>
      RepeatAt(w.Then(y)).value.1 == RepeatAt(w).value.1 && Within(w, y, RepeatAt(w).value.1, Code, depth, loose)
  {
    hide AfterCount, CountText, NoSemi;
    RepeatWord();
    EnclosedStarts(w, y, Of("repeat"), depth, loose);
    var u := w.Drop(6);
    var j := TriviaEnd(u, Code);
    EnclosedTrivia(u, y, Code, depth, loose);
    EnclosedCount(u.Drop(j), y, depth, loose);
    if AfterCount(u.Drop(j)).Some? {
      WithinMore(u, y, j, AfterCount(u.Drop(j)).value, Code, depth, loose);
      WithinMore(w, y, 6, j + AfterCount(u.Drop(j)).value, Code, depth, loose);
    }
  }

  lemma BrokenAlone(w: Text, y: Text, n: nat)
    requires n <= w.Size()
    ensures Broken(w.Then(y), n, false) == Broken(w, n, false)
  {
    ThenTake(w, y, n);
    BrokenShared(w, w.Then(y), n, false);
  }

  /** The right-hand side after a control of `k` characters at offset `m`. */
  lemma WithinRhs(w: Text, y: Text, m: nat, k: nat, depth: nat, loose: nat)
    requires Within(w, y, m, Code, depth, loose) && Within(w.Drop(m), y, k, Code, depth, loose)
    ensures var r := RhsEnd(w.Drop(m).Drop(k));
      && RhsEnd(w.Then(y).Drop(m).Drop(k)) == r
      && (r.Some? ==> Broken(w.Then(y), m + k + r.value, false) == Broken(w, m + k + r.value, false))
      && (NoSemi(w, Code) ==> r.None?)
  {
    hide Enclosed;
    var x := w.Drop(m).Drop(k);
    EnclosedBalanced(x, Code, depth, loose);
    BalancedRhs(x, y, depth);
    DropSize(w, m);
    DropSize(w.Drop(m), k);
    if RhsEnd(x).Some? { BrokenAlone(w, y, m + k + RhsEnd(x).value); }
  }

  lemma DelayAlone(w: Text, y: Text, op: nat, depth: nat, loose: nat, inDef: bool)
    requires Within(w, y, op, Code, depth, loose) && loose <= depth
    ensures DelaySite(w.Then(y), w.Then(y).Drop(op), op, inDef).Some? <==> DelaySite(w, w.Drop(op), op, inDef).Some?
    ensures NoSemi(w, Code) ==> DelaySite(w, w.Drop(op), op, inDef).None?
  {
    hide DelayEnd, RhsEnd, Broken, Enclosed, NoSemi;
    var u := w.Drop(op);
    EnclosedControl(u, y, depth, loose);
    if DelayEnd(u).Some? { WithinRhs(w, y, op, DelayEnd(u).value, depth, loose); }
  }

  lemma EventAlone(w: Text, y: Text, at: nat, c: Text, d: Text, depth: nat, loose: nat, inDef: bool)
    requires Within(w, y, at + 1, Code, depth, loose) && loose <= depth
    ensures EventSite(w.Then(y), at, c, inDef).Some? <==> EventSite(w, at, d, inDef).Some?
    ensures NoSemi(w, Code) ==> EventSite(w, at, d, inDef).None?
  {
    hide EventControlAt, RhsEnd, Broken, Enclosed, NoSemi;
    var u := w.Drop(at + 1);
    EnclosedEvent(u, y, depth, loose);
    if EventControlAt(u).Some? { WithinRhs(w, y, at + 1, EventControlAt(u).value.ctl, depth, loose); }
  }

  /** Whether a site starts inside an enclosed stretch is decided inside it; none does without `;`. */
  lemma SiteAlone(w: Text, y: Text, depth: nat, r: Recent, inDef: bool)
    requires Enclosed(w, Code, depth, depth) && Plain(Code, w) && Paired(w)
    ensures FindSite(w.Then(y), r, inDef).Some? <==> FindSite(w, r, inDef).Some?
    ensures NoSemi(w, Code) ==> FindSite(w, r, inDef).None?
  {
    hide Enclosed, EventSite, DelaySite, RepeatAt, NoSemi, Paired;
    EnclosedHead(w, y, Code, depth, depth);
    RepeatWord();
    EnclosedStarts(w, y, Of("repeat"), depth, depth);
    if w.head == '@' {
      WithinOne(w, y, depth, depth);
      EventAlone(w, y, 0, Of("1"), Of("1"), depth, depth, inDef);
    } else if IsRepeat(w) {
      RepeatAlone(w, y, depth, r, inDef);
    } else if w.head == '#' {
      HashAlone(w, y, depth, inDef);
      HashDrop(w);
      HashDrop(w.Then(y));
    }
  }

  lemma RepeatAlone(w: Text, y: Text, depth: nat, r: Recent, inDef: bool)
    requires Enclosed(w, Code, depth, depth) && IsRepeat(w) && Paired(w)
    ensures FindSite(w.Then(y), r, inDef).Some? <==> FindSite(w, r, inDef).Some?
    ensures NoSemi(w, Code) ==> FindSite(w, r, inDef).None?
  {
    hide RepeatAt, EventSite, EventControlAt, Enclosed, Paired, NoSemi;
    RepeatWord();
    EnclosedRepeat(w, y, depth, depth);
    if RepeatAt(w).Some? {
      var at := RepeatAt(w).value.1;
      RepeatStart(w);
      WithinOne(w.Drop(at), y, depth, depth);
      WithinMore(w, y, at, 1, Code, depth, depth);
      EventAlone(w, y, at, RepeatAt(w.Then(y)).value.0, RepeatAt(w).value.0, depth, depth, inDef);
    }
  }

  lemma HashAlone(w: Text, y: Text, depth: nat, inDef: bool)
    requires Enclosed(w, Code, depth, depth) && w.head == '#'
    ensures HashLength(w.Then(y)) == HashLength(w) > 0
    ensures var op := HashLength(w);
      && (DelaySite(w.Then(y), w.Then(y).Drop(op), op, inDef).Some? <==> DelaySite(w, w.Drop(op), op, inDef).Some?)
      && (NoSemi(w, Code) ==> DelaySite(w, w.Drop(op), op, inDef).None?)
  {
    hide DelaySite;
    WithinOne(w, y, depth, depth);
    EnclosedHead(w.tail, y, Code, depth, depth);
    if HashLength(w) == 2 {
      WithinOne(w.tail, y, depth, depth);
      WithinMore(w, y, 1, 1, Code, depth, depth);
    }
    DelayAlone(w, y, HashLength(w), depth, depth, inDef);
  }

  /** `p` has no closing bracket. */
  predicate NoCloser(p: Text) {
    p.End? || (!Closes(p.head) && NoCloser(p.tail))
  }

  lemma {:induction false} NoCloserFrom(s: string, i: nat)
    requires i <= |s| && forall k :: 0 <= k < |s| ==> !Closes(s[k])
    ensures NoCloser(From(s, i))
    decreases |s| - i
  {
    if i < |s| { NoCloserFrom(s, i + 1); }
  }

  lemma {:induction false} BalancedStarts(w: Text, y: Text, m: Mode, depth: nat, p: Text)
    requires Balanced(w, m, depth) && NoCloser(p)
    ensures Starts(w.Then(y), p) == Starts(w, p)
  {
    if p.Ch? && w.head == p.head && !(Plain(m, w) && Closes(w.head) && depth == 1) {
      BalancedStarts(w.tail, y, Next(m, w), Deeper(m, w, depth), p.tail);
    }
  }

  /** So a balanced stretch is read by itself as it is read in its place. */
  lemma AfterAlone(w: Text, y: Text, s: State, depth: nat)
    requires Balanced(w, s.mode, depth)
    ensures DefNow(s, w.Then(y)) == DefNow(s, w) && After(s, w.Then(y)) == After(s, w)
  {
    BalancedHead(w, y, s.mode, depth);
    NoCloserFrom("`define", 0);
    BalancedStarts(w, y, s.mode, depth, Of("`define"));
  }

  lemma SiteAtAlone(w: Text, y: Text, s: State, r: Recent, depth: nat)
    requires Balanced(w, s.mode, depth) && Legible(w, s.mode, r, depth) && Similar(r, s.recent)
    ensures SiteAt(w.Then(y), s).Some? <==> SiteAt(w, s).Some?
    ensures NoSemi(w, s.mode) ==> SiteAt(w, s).None?
  {
    hide FindSite, Enclosed, NoSemi, DefNow, Paired;
    BalancedHead(w, y, s.mode, depth);
    AfterAlone(w, y, s, depth);
    if Plain(s.mode, w) {
      if !Gate(s.recent) {
        UngatedNoSite(w, s);
        UngatedNoSite(w.Then(y), s);
      } else if Control(w) {
        SiteAlone(w, y, depth, s.recent, DefNow(s, w));
      } else {
        RepeatWord();
        EnclosedWordless(w, y, s.mode, depth);
        NoControl(w, s.recent, DefNow(s, w));
        NoControl(w.Then(y), s.recent, DefNow(s, w));
      }
    }
  }

  lemma EnclosedWordless(w: Text, y: Text, m: Mode, depth: nat)
    requires Balanced(w, m, depth)
    ensures IsRepeat(w.Then(y)) == IsRepeat(w)
  {
    NoCloserFrom("repeat", 0);
    BalancedStarts(w, y, m, depth, Of("repeat"));
  }

  lemma NoControl(w: Text, r: Recent, inDef: bool)
    requires !Control(w)
    ensures FindSite(w, r, inDef).None?
  {
  }

  lemma {:induction false} CopiedAlone(w: Text, y: Text, s: State, r: Recent, depth: nat)
    requires Balanced(w, s.mode, depth) && Legible(w, s.mode, r, depth) && Similar(r, s.recent)
    ensures Copied(w.Then(y), s, w.Size()) <==> Copied(w, s, w.Size())
    ensures NoSemi(w, s.mode) ==> Copied(w, s, w.Size())
    ensures Through(w.Then(y), s, w.Size()) == Through(w, s, w.Size())
    ensures Through(w, s, w.Size()).mode == Code
  {
    hide SiteAt, DefNow, Gate, Control, Enclosed, Paired;
    BalancedHead(w, y, s.mode, depth);
    AfterAlone(w, y, s, depth);
    SiteAtAlone(w, y, s, r, depth);
    if Plain(s.mode, w) && Closes(w.head) && depth == 1 {
      assert w.Size() == 1;
      assert Copied(End, After(s, w), 0) && Copied(y, After(s, w), 0);
    } else {
      CopiedAlone(w.tail, y, After(s, w), Seen(r, s.mode, w), Deeper(s.mode, w, depth));
    }
  }

  // ------------------------------------------------------------ the rewritten text

  ghost function Image(t: Text, s: State): Text {
    Render(Scan(t, s))
  }

  lemma ImageCopy(t: Text, s: State)
    requires t.Ch? && SiteAt(t, s).None?
    ensures Image(t, s) == Ch(t.head, Image(t.tail, After(s, t)))
  {
  }

  lemma ImageSite(t: Text, s: State)
    requires SiteAt(t, s).Some?
    ensures var site := SiteAt(t, s).value;
            t.Ch? && Image(t, s) == Show(site.piece, Image(t.Drop(site.semi), AtSemi(s, t)))
  {
  }

  /** A control starts with `@`, `#` or the `r` of `repeat`. */
  predicate Trigger(c: char) {
    c == '@' || c == '#' || c == 'r'
  }

  lemma SiteTrigger(t: Text, s: State)
    requires SiteAt(t, s).Some?
    ensures Plain(s.mode, t) && Gate(s.recent) && Trigger(t.head) && !SiteAt(t, s).value.piece.Copy?
  {
    RepeatWord();
  }

  /** The rewritten text starts with the same character, or with the `$` of a marker. */
  lemma ImageHead(t: Text, s: State)
    requires t.Ch?
    ensures Image(t, s).Ch?
    ensures Image(t, s).head == t.head || (SiteAt(t, s).Some? && Image(t, s).head == '$' && Trigger(t.head))
  {
    if SiteAt(t, s).Some? {
      ImageSite(t, s);
      SiteTrigger(t, s);
      MarkerHead(SiteAt(t, s).value.piece);
    } else {
      ImageCopy(t, s);
    }
  }

  lemma MarkerHead(p: Piece)
    requires !p.Copy?
    ensures Of(Marker(p)).Ch? && Of(Marker(p)).head == '$'
  {
  }

  /** A copied character reads the same in the rewritten text. */
  lemma ImageReads(t: Text, s: State)
    requires t.Ch? && SiteAt(t, s).None?
    ensures var T := Image(t, s);
            && T.Ch? && T.head == t.head && T.tail == Image(t.tail, After(s, t))
            && Plain(s.mode, T) == Plain(s.mode, t) && Next(s.mode, T) == Next(s.mode, t)
            && CommentStart(T) == CommentStart(t)
  {
    hide SiteAt;
    ImageCopy(t, s);
    if t.tail.Ch? { ImageHead(t.tail, After(s, t)); }
  }

  lemma ImageCopied(t: Text, s: State, n: nat)
    requires Copied(t, s, n)
    ensures Image(t, s) == t.Take(n).Then(Image(t.Drop(n), Through(t, s, n)))
    ensures Image(t, s).Drop(n) == Image(t.Drop(n), Through(t, s, n)) && Image(t, s).Take(n) == t.Take(n)
  {
    CopiedScan(t, s, n);
    CopiedFits(t, s, n);
    DropSize(t, n);
    ThenSplits(t.Take(n), Image(t.Drop(n), Through(t, s, n)));
  }

  lemma {:induction false} CopiedFits(t: Text, s: State, n: nat)
    requires Copied(t, s, n)
    ensures n <= t.Size()
  {
    if n > 0 { CopiedFits(t.tail, After(s, t), n - 1); }
  }

  lemma {:induction false} TidyThrough(t: Text, s: State, n: nat)
    requires Tidy(t, s) && Copied(t, s, n)
    ensures Tidy(t.Drop(n), Through(t, s, n))
  {
    if n > 0 { TidyThrough(t.tail, After(s, t), n - 1); }
  }

  /** A `define line lasts until an unescaped newline is copied. */
  lemma {:induction false} InDefThrough(t: Text, s: State, n: nat)
    requires s.inDef && !Broken(t, n, s.esc)
    ensures Through(t, s, n).inDef
  {
    if n > 0 && t.Ch? { InDefThrough(t.tail, After(s, t), n - 1); }
  }

  /** `p` has no character that could open a gate, a comment or a string. */
  predicate Dull(p: Text) {
    p.End? || (p.head != '=' && p.head != '/' && p.head != '"' && Dull(p.tail))
  }

  /** Away from an assignment operator nothing is rewritten. */
  lemma {:induction false} DullCopied(t: Text, p: Text, s: State)
    requires s.mode == Code && !Gate(s.recent) && Dull(p) && Starts(t, p)
    ensures Copied(t, s, p.Size())
    ensures var z := Through(t, s, p.Size());
            z.mode == Code && !Gate(z.recent)
  {
    if p.Ch? {
      DullCopied(t.tail, p.tail, After(s, t));
    }
  }

  lemma UngatedNoSite(t: Text, s: State)
    requires !Gate(s.recent)
    ensures SiteAt(t, s).None?
  {
  }

  lemma {:induction false} WordCopied(t: Text, s: State)
    requires s.mode == Code && !Gate(s.recent)
    ensures var k := WordEnd(t);
            && Copied(t, s, k) && WordEnd(Image(t, s)) == k
            && Through(t, s, k).mode == Code && !Gate(Through(t, s, k).recent)
  {
    UngatedNoSite(t, s);
    if t.Ch? {
      ImageReads(t, s);
      if WordChar(t.head) { WordCopied(t.tail, After(s, t)); }
    }
  }

  lemma {:induction false} ImageTrivia(t: Text, s: State)
    requires !InString(s.mode)
    ensures TriviaEnd(Image(t, s), s.mode) == TriviaEnd(t, s.mode)
  {
    if t.Ch? {
      if SiteAt(t, s).Some? {
        SiteTrigger(t, s);
        ImageHead(t, s);
      } else {
        ImageReads(t, s);
        if s.mode != Code || CommentStart(t) || Space(t.head) { ImageTrivia(t.tail, After(s, t)); }
      }
    }
  }

  // ----------------------------------------------- finding the `;` past a site

  /** A tidy site leaves the bracket depth as it was. */
  lemma SiteWalk(t: Text, s: State, depth: nat)
    requires SiteAt(t, s).Some? && TidyPiece(SiteAt(t, s).value.piece)
    ensures var semi := SiteAt(t, s).value.semi;
      Find(t, Code, depth) == Plus(semi, Find(t.Drop(semi), Code, depth))
  {
    hide SiteAt, Balanced, Legible;
    var site := SiteAt(t, s).value;
    SiteTrigger(t, s);
    SiteText(t, s);
    SiteLength(t, s);
    SourceThen(site.piece, End, SEMI);
    assert End.Then(SEMI) == SEMI;
    LevelWalk(Source(site.piece, End), t.Drop(site.semi), Code, 0, depth);
  }

  lemma MarkerWord(p: Piece)
    requires !p.Copy?
    ensures AllWord(Of(Marker(p)))
  {
    WordFrom(Marker(p), 0);
  }

  lemma {:induction false} AllWordWalk(p: Text, y: Text, depth: nat)
    requires AllWord(p)
    ensures Find(p.Then(y), Code, depth) == Plus(p.Size(), Find(y, Code, depth))
  {
    if p.Ch? {
      FindOneMore(p.Then(y), Code, depth);
      AllWordWalk(p.tail, y, depth);
    }
  }

  /** So does what is written for it. */
  lemma ShowWalk(p: Piece, more: Text, depth: nat)
    requires !p.Copy? && TidyPiece(p)
    ensures Find(Show(p, more), Code, depth) == Plus(Show(p, End).Size(), Find(more, Code, depth))
  {
    hide Balanced, Legible;
    MarkerWord(p);
    ArgsThen(p, CALL_CLOSE, more);
    CallWalk(Of(Marker(p)), Args(p, CALL_CLOSE), more, depth);
  }

  lemma CallWalk(marker: Text, args: Text, more: Text, depth: nat)
    requires AllWord(marker) && Balanced(args, Code, 1)
    ensures Find(marker.Then(Ch('(', args.Then(more))), Code, depth)
         == Plus(marker.Then(Ch('(', args)).Size(), Find(more, Code, depth))
  {
    hide Balanced;
    AllWordWalk(marker, Ch('(', args.Then(more)), depth);
    BalancedWalk(args, more, Code, 1, depth);
    ThenSplits(marker, Ch('(', args));
    assert Find(Ch('(', args.Then(more)), Code, depth) == Plus(1, Find(args.Then(more), Code, 1 + depth));
  }

  // ------------------------------------ statement ends before and after rewriting

  /** Whether the character before offset `n` is a backslash, given that for offset 0. */
  function EscAt(t: Text, n: nat, esc: bool): bool {
    if n == 0 || t.End? then esc else EscAt(t.tail, n - 1, t.head == '\\')
  }

  lemma {:induction false} BrokenParts(t: Text, m: nat, n: nat, esc: bool)
    requires m <= t.Size()
    ensures Broken(t, m + n, esc) <==> Broken(t, m, esc) || Broken(t.Drop(m), n, EscAt(t, m, esc))
  {
    if m > 0 { BrokenParts(t.tail, m - 1, n, t.head == '\\'); }
  }

  lemma BrokenAnyEsc(t: Text, n: nat, e: bool, f: bool)
    requires t.Ch? && t.head != '\n'
    ensures Broken(t, n, e) == Broken(t, n, f)
  {
  }

  lemma {:induction false} BrokenShared(t: Text, u: Text, n: nat, esc: bool)
    requires n <= t.Size() && t.Take(n) == u.Take(n)
    ensures Broken(t, n, esc) == Broken(u, n, esc) && EscAt(t, n, esc) == EscAt(u, n, esc)
  {
    if n > 0 { BrokenShared(t.tail, u.tail, n - 1, t.head == '\\'); }
  }

  lemma {:induction false} ThroughEsc(t: Text, s: State, n: nat)
    ensures Through(t, s, n).esc == EscAt(t, n, s.esc)
  {
    if n > 0 && t.Ch? { ThroughEsc(t.tail, After(s, t), n - 1); }
  }

  /** The statement ends `a` in a text and `b` in its rewriting agree. */
  ghost predicate Agree(t: Text, T: Text, a: Option<nat>, b: Option<nat>, s: State) {
    && (a.None? <==> b.None?)
    && (a.Some? && IsBlank(t.Take(a.value)) ==> IsBlank(T.Take(b.value)))
    && (a.Some? && s.inDef && Broken(t, a.value, s.esc) ==> Broken(T, b.value, s.esc))
  }

  lemma AgreeCopy(t: Text, T: Text, a: Option<nat>, b: Option<nat>, s: State)
    requires t.Ch? && T.Ch? && T.head == t.head && Agree(t.tail, T.tail, a, b, After(s, t))
    ensures Agree(t, T, Plus(1, a), Plus(1, b), s)
  {
  }

  lemma NotBlank(t: Text, n: nat)
    requires t.Ch? && n > 0 && !Space(t.head)
    ensures !IsBlank(t.Take(n))
  {
  }

  lemma AgreeSite(t: Text, T: Text, semi: nat, a: Option<nat>, b: Option<nat>, s: State, shown: Text)
    requires t.Ch? && !Space(t.head) && 0 < semi < t.Size() && (s.inDef ==> !Broken(t, semi, false))
    requires t.Drop(semi).Ch? && t.Drop(semi).head == ';'
    requires T == shown.Then(T.Drop(shown.Size())) && shown.Ch? && shown.head == '$'
    requires T.Drop(shown.Size()).Ch? && T.Drop(shown.Size()).head == ';'
    requires Agree(t.Drop(semi), T.Drop(shown.Size()), a, b, AtSemi(s, t))
    ensures Agree(t, T, Plus(semi, a), Plus(shown.Size(), b), s)
  {
    if a.Some? {
      NotBlank(t, semi + a.value);
      if s.inDef && Broken(t, semi + a.value, s.esc) {
        BrokenAnyEsc(t, semi + a.value, s.esc, false);
        BrokenParts(t, semi, a.value, false);
        BrokenAnyEsc(t.Drop(semi), a.value, EscAt(t, semi, false), false);
        ThenSplits(shown, T.Drop(shown.Size()));
        BrokenAnyEsc(T.Drop(shown.Size()), b.value, EscAt(T, shown.Size(), s.esc), false);
        BrokenParts(T, shown.Size(), b.value, s.esc);
      }
    }
  }

  lemma ShownParts(p: Piece, more: Text)
    requires !p.Copy?
    ensures var shown := Show(p, End);
            && shown.Ch? && shown.head == '$' && shown.Size() > 0
            && Show(p, more) == shown.Then(more) && Show(p, more).Drop(shown.Size()) == more
  {
    MarkerHead(p);
    ShowThen(p, more);
    ThenSplits(Show(p, End), more);
  }

  /** Looking for a statement end gives corresponding answers in the text and in its rewriting. */
  lemma {:induction false} FindImage(t: Text, s: State, depth: nat)
    requires Tidy(t, s)
    ensures Agree(t, Image(t, s), Find(t, s.mode, depth), Find(Image(t, s), s.mode, depth), s)
    decreases t.Size()
  {
    if t.Ch? {
      if SiteAt(t, s).Some? {
        FindImageSite(t, s, depth);
      } else {
        ImageReads(t, s);
        if !(Plain(s.mode, t) && depth == 0 && (Closes(t.head) || t.head == ';')) {
          FindImage(t.tail, After(s, t), Deeper(s.mode, t, depth));
          AgreeCopy(t, Image(t, s), Find(t.tail, Next(s.mode, t), Deeper(s.mode, t, depth)),
                    Find(Image(t, s).tail, Next(s.mode, t), Deeper(s.mode, t, depth)), s);
        }
      }
    }
  }

  lemma {:induction false} FindImageSite(t: Text, s: State, depth: nat)
    requires Tidy(t, s) && SiteAt(t, s).Some?
    ensures Agree(t, Image(t, s), Find(t, s.mode, depth), Find(Image(t, s), s.mode, depth), s)
    decreases t.Size(), 0
  {
    var site, z := SiteAt(t, s).value, AtSemi(s, t);
    var rest := t.Drop(site.semi);
    SiteAdvances(t, s.recent, DefNow(s, t));
    DropShrinks(t, site.semi);
    SiteTrigger(t, s);
    SiteText(t, s);
    SiteWalk(t, s, depth);
    FindImage(rest, z, depth);
    ImageSite(t, s);
    ShowWalk(site.piece, Image(rest, z), depth);
    ShownParts(site.piece, Image(rest, z));
    ImageHead(rest, z);
    if s.inDef { SiteUnbroken(t, s.recent); }
    AgreeSite(t, Image(t, s), site.semi, Find(rest, Code, depth), Find(Image(rest, z), Code, depth), s, Show(site.piece, End));
  }

  // ------------------------------------------- refused statements are refused again

  lemma CalmMore(t: Text, s: State, m: nat, n: nat)
    requires Copied(t, s, m) && Calm(t.Drop(m), Through(t, s, m), n)
    ensures Calm(t, s, m + n)
  {
    CopiedMore(t, s, m, n);
  }

  lemma TakeTail(t: Text, u: Text, k: nat)
    requires k > 0 && t.Take(k) == u.Take(k)
    ensures t.Take(k - 1) == u.Take(k - 1)
  {
    TakeTake(t, k - 1, k);
    TakeTake(u, k - 1, k);
  }

  lemma {:induction false} TakeTake(t: Text, a: nat, b: nat)
    requires a <= b
    ensures t.Take(b).Take(a) == t.Take(a)
  {
    if a > 0 && t.Ch? { TakeTake(t.tail, a - 1, b - 1); }
  }

  /** The parenthesised group of a refused delay is copied whole. */
  lemma OperandImage(u: Text, s: State)
    requires s.mode == Code && !Gate(s.recent) && TidyOperand(u, s)
    ensures OperandEnd(Image(u, s)) == OperandEnd(u)
    ensures OperandEnd(u).Some? ==> Calm(u, s, OperandEnd(u).value)
  {
    UngatedNoSite(u, s);
    if u.Ch? {
      ImageReads(u, s);
      if u.head == '(' {
        ImageCopied(u, s, 1 + RawEnd(u.tail, Code, 1).value);
        RawShared(u.tail, Image(u, s).tail, Code, 1);
      } else {
        WordCopied(u, s);
      }
    }
  }

  lemma DelayEndImage(t: Text, s: State)
    requires s.mode == Code && !Gate(s.recent) && TidyDelay(t, s)
    ensures DelayEnd(Image(t, s)) == DelayEnd(t)
    ensures DelayEnd(t).Some? ==> Calm(t, s, DelayEnd(t).value)
  {
    hide TidyOperand, OperandEnd, TriviaEnd, SiteAt, Calm;
    var j := TriviaEnd(t, Code);
    var u, z := t.Drop(j), Through(t, s, j);
    TriviaCopied(t, s);
    ImageTrivia(t, s);
    ImageCopied(t, s, j);
    if u.Ch? {
      OperandImage(u, z);
      var k := OperandEnd(u);
      if k.Some? { CalmMore(t, s, j, k.value); }
    } else {
      assert OperandEnd(u).None? by { OperandOfEnd(); }
      assert Image(End, z) == End;
    }
  }

  lemma OperandOfEnd()
    ensures OperandEnd(End).None?
  {
  }

  /** When the right-hand side of a refused control starts at `m`, it is refused in the rewriting. */
  lemma RefusedAgain(t: Text, s: State, m: nat)
    requires Tidy(t, s) && Copied(t, s, m) && 0 < m && t.head != '\n' && Through(t, s, m).mode == Code
    requires RhsEnd(t.Drop(m)).Some? ==> DefNow(s, t) && Broken(t, m + RhsEnd(t.Drop(m)).value, false)
    ensures var T := Image(t, s);
            RhsEnd(T.Drop(m)).Some? ==> DefNow(s, t) && Broken(T, m + RhsEnd(T.Drop(m)).value, false)
  {
    var T, x, z := Image(t, s), t.Drop(m), Through(t, s, m);
    TidyThrough(t, s, m);
    ImageCopied(t, s, m);
    FindImage(x, z, 0);
    if RhsEnd(x).Some? {
      CopiedFits(t, s, m);
      RefusedBroken(t, s, T, m, Find(x, Code, 0).value, Find(Image(x, z), Code, 0).value);
    }
  }

  /** `T` agrees with `t` up to `m`, where a right-hand side of `n` characters starts, in `T`
      one of `n'`. */
  lemma RefusedBroken(t: Text, s: State, T: Text, m: nat, n: nat, n': nat)
    requires t.Ch? && 0 < m <= t.Size() && t.head != '\n' && T.Take(m) == t.Take(m)
    requires DefNow(s, t) && Broken(t, m + n, false)
    requires Through(t, s, m).inDef && Broken(t.Drop(m), n, Through(t, s, m).esc) ==> Broken(T.Drop(m), n', Through(t, s, m).esc)
    ensures Broken(T, m + n', false)
  {
    BrokenParts(t, m, n, false);
    BrokenShared(t, T, m, false);
    SizeTake(T, t, m);
    BrokenParts(T, m, n', false);
    if !Broken(t, m, false) {
      BrokenAnyEsc(t, m, false, s.esc);
      RefusedInDef(t, s, m);
      ThroughEsc(t, s, m);
      EscAnyEsc(t, m, s.esc, false);
    }
  }

  lemma SizeTake(T: Text, t: Text, m: nat)
    requires m <= t.Size() && T.Take(m) == t.Take(m)
    ensures m <= T.Size()
  {
    DropSize(T, m);
    DropSize(t, m);
  }

  lemma EscAnyEsc(t: Text, n: nat, e: bool, f: bool)
    requires t.Ch? && n > 0
    ensures EscAt(t, n, e) == EscAt(t, n, f)
  {
  }

  lemma RefusedInDef(t: Text, s: State, m: nat)
    requires t.Ch? && m > 0 && DefNow(s, t) && !Broken(t, m, s.esc)
    ensures Through(t, s, m).inDef
  {
    InDefThrough(t.tail, After(s, t), m - 1);
  }

  lemma NameImage(u: Text, s: State)
    requires s.mode == Code && !Gate(s.recent)
    ensures WordEnd(Image(u, s)) == WordEnd(u) && Image(u, s).Take(WordEnd(u)) == u.Take(WordEnd(u))
  {
    WordCopied(u, s);
    ImageCopied(u, s, WordEnd(u));
  }

  lemma SameGroup(u: Text, T: Text)
    requires u.Ch? && T.Ch? && u.head == '(' == T.head
    requires RawEnd(T.tail, Code, 1) == RawEnd(u.tail, Code, 1)
    requires RawEnd(u.tail, Code, 1).Some? ==>
      var k := RawEnd(u.tail, Code, 1).value; T.tail.Take(k - 1) == u.tail.Take(k - 1)
    ensures EventOperand(T) == EventOperand(u)
  {
  }

  lemma SameName(u: Text, T: Text)
    requires u.Ch? && T.Ch? && u.head != '(' && T.head == u.head
    requires WordEnd(T) == WordEnd(u) && T.Take(WordEnd(u)) == u.Take(WordEnd(u))
    ensures EventOperand(T) == EventOperand(u)
  {
  }

  lemma {:induction false} DullSig(t: Text)
    requires SigChars(t)
    ensures Dull(t)
  {
    if t.Ch? { DullSig(t.tail); }
  }

  lemma {:induction false} DullTrimStart(t: Text)
    requires Dull(TrimStart(t))
    ensures Dull(t)
  {
    if t.Ch? && TrimSpace(t.head) { DullTrimStart(t.tail); }
  }

  lemma {:induction false} DullSpace(t: Text)
    requires AllTrimSpace(t)
    ensures Dull(t)
  {
    if t.Ch? { DullSpace(t.tail); }
  }

  lemma {:induction false} DullTrimEnd(t: Text)
    requires Dull(TrimEnd(t))
    ensures Dull(t)
  {
    if AllTrimSpace(t) {
      DullSpace(t);
    } else {
      DullTrimEnd(t.tail);
    }
  }

  lemma DullTrim(t: Text)
    requires Dull(Trim(t))
    ensures Dull(t)
  {
    DullTrimEnd(TrimStart(t));
    DullTrimStart(t);
  }

  lemma {:induction false} DullAfter(t: Text, p: Text)
    requires Starts(t, p) && Dull(p) && Dull(t.Drop(p.Size()))
    ensures Dull(t)
  {
    if p.Ch? { DullAfter(t.tail, p.tail); }
  }

  /** An accepted event expression has no character that could open a gate, a comment or a string. */
  lemma DullEvent(ev: Text)
    requires EdgeAndSig(ev).Some?
    ensures Dull(ev)
  {
    hide Contains, Trim, Starts;
    DullSig(EdgeAndSig(ev).value.1);
    if Starts(ev, Of("posedge ")) {
      SizeFrom("posedge ", 0);
      DullFrom("posedge ", 0);
      DullTrim(ev.Drop(8));
      DullAfter(ev, Of("posedge "));
    } else if Starts(ev, Of("negedge ")) {
      SizeFrom("negedge ", 0);
      DullFrom("negedge ", 0);
      DullTrim(ev.Drop(8));
      DullAfter(ev, Of("negedge "));
    }
  }

  lemma {:induction false} RawDull(t: Text, depth: nat)
    requires depth > 0 && RawEnd(t, Code, depth).Some? && Dull(t.Take(RawEnd(t, Code, depth).value - 1))
    ensures Dull(t.Take(RawEnd(t, Code, depth).value))
  {
    if Closes(t.head) && depth == 1 {
      assert t.tail.Take(0) == End && t.Take(1) == Ch(t.head, t.tail.Take(0));
    } else {
      RawDull(t.tail, if Opens(t.head) then depth + 1 else if Closes(t.head) then depth - 1 else depth);
    }
  }

  /** Nor has the whole group. */
  lemma DullGroup(u: Text)
    requires u.Ch? && u.head == '(' && EventOperand(u).Some?
    ensures Dull(u.tail.Take(RawEnd(u.tail, Code, 1).value))
  {
    hide EdgeAndSig, Trim;
    var k := RawEnd(u.tail, Code, 1).value;
    DullEvent(Trim(u.tail.Take(k - 1)));
    DullTrim(u.tail.Take(k - 1));
    RawDull(u.tail, 1);
  }

  lemma {:induction false} StartsTake(t: Text, n: nat)
    requires n <= t.Size()
    ensures Starts(t, t.Take(n)) && t.Take(n).Size() == n
  {
    if n > 0 { StartsTake(t.tail, n - 1); }
  }

  lemma {:induction false} TakeStarts(t: Text, p: Text)
    requires Starts(t, p)
    ensures t.Take(p.Size()) == p
  {
    if p.Ch? { TakeStarts(t.tail, p.tail); }
  }

  /** So an event control reads the same in the rewriting, and is copied. */
  lemma EventGroupImage(u: Text, s: State)
    requires s.mode == Code && !Gate(s.recent) && u.Ch? && u.head == '('
    ensures EventOperand(Image(u, s)) == EventOperand(u)
    ensures EventOperand(u).Some? ==> Calm(u, s, EventOperand(u).value.ctl)
  {
    hide Image, EventOperand, Dull;
    var T, z := Image(u, s), After(s, u);
    UngatedNoSite(u, s);
    ImageReads(u, s);
    OneStep(u, s);
    if EventOperand(u).Some? {
      SharedGroup(u, T.tail, z);
      SameOperand(u, T);
      GroupCalm(u, s);
    } else if EventOperand(T).Some? {
      OperandRaw(T);
      DullGroup(T);
      var k := RawEnd(T.tail, Code, 1).value;
      RawFits(T.tail, Code, 1);
      StartsTake(T.tail, k);
      StartsImage(u.tail, T.tail.Take(k), z);
      TakeStarts(u.tail, T.tail.Take(k));
      SameOperand(T, u);
    }
  }

  lemma OperandRaw(u: Text)
    requires u.Ch? && u.head == '(' && EventOperand(u).Some?
    ensures RawEnd(u.tail, Code, 1).Some? && EventOperand(u).value.ctl == 1 + RawEnd(u.tail, Code, 1).value
  {
  }

  lemma SharedGroup(u: Text, T: Text, z: State)
    requires u.Ch? && u.head == '(' && EventOperand(u).Some?
    requires z.mode == Code && !Gate(z.recent) && T == Image(u.tail, z)
    ensures RawEnd(u.tail, Code, 1).Some?
    ensures Calm(u.tail, z, RawEnd(u.tail, Code, 1).value)
    ensures T.Take(RawEnd(u.tail, Code, 1).value) == u.tail.Take(RawEnd(u.tail, Code, 1).value)
  {
    hide EventOperand, Dull, Image;
    OperandRaw(u);
    DullGroup(u);
    var k := RawEnd(u.tail, Code, 1).value;
    RawFits(u.tail, Code, 1);
    StartsTake(u.tail, k);
    DullCopied(u.tail, u.tail.Take(k), z);
    ImageCopied(u.tail, z, k);
  }

  lemma GroupCalm(u: Text, s: State)
    requires s.mode == Code && !Gate(s.recent) && u.Ch? && u.head == '(' && EventOperand(u).Some?
    requires Copied(u, s, 1) && Through(u, s, 1) == After(s, u)
    requires RawEnd(u.tail, Code, 1).Some? && Calm(u.tail, After(s, u), RawEnd(u.tail, Code, 1).value)
    ensures Calm(u, s, EventOperand(u).value.ctl)
  {
    hide EventOperand, Calm;
    OperandRaw(u);
    assert u.Drop(1) == u.tail;
    CalmMore(u, s, 1, RawEnd(u.tail, Code, 1).value);
  }

  /** Texts with the same group after `(` have the same event operand. */
  lemma SameOperand(u: Text, T: Text)
    requires u.Ch? && T.Ch? && u.head == '(' == T.head && RawEnd(u.tail, Code, 1).Some?
    requires T.tail.Take(RawEnd(u.tail, Code, 1).value) == u.tail.Take(RawEnd(u.tail, Code, 1).value)
    ensures EventOperand(T) == EventOperand(u)
  {
    RawShared(u.tail, T.tail, Code, 1);
    TakeTail(u.tail, T.tail, RawEnd(u.tail, Code, 1).value);
    SameGroup(u, T);
  }

  lemma EventOperandImage(u: Text, s: State)
    requires s.mode == Code && !Gate(s.recent)
    ensures EventOperand(Image(u, s)) == EventOperand(u)
    ensures EventOperand(u).Some? ==> Calm(u, s, EventOperand(u).value.ctl)
  {
    UngatedNoSite(u, s);
    if u.Ch? {
      ImageReads(u, s);
      if u.head == '(' {
        EventGroupImage(u, s);
      } else {
        NameImage(u, s);
        SameName(u, Image(u, s));
        WordCopied(u, s);
      }
    }
  }

  lemma EventControlImage(t: Text, s: State)
    requires s.mode == Code && !Gate(s.recent)
    ensures EventControlAt(Image(t, s)) == EventControlAt(t)
    ensures EventControlAt(t).Some? ==> Calm(t, s, EventControlAt(t).value.ctl)
  {
    hide EventOperand, TriviaEnd, SiteAt, Calm;
    var j := TriviaEnd(t, Code);
    TriviaCopied(t, s);
    ImageTrivia(t, s);
    ImageCopied(t, s, j);
    if t.Drop(j).Ch? {
      EventOperandImage(t.Drop(j), Through(t, s, j));
      if EventOperand(t.Drop(j)).Some? { CalmMore(t, s, j, EventOperand(t.Drop(j)).value.ctl); }
    } else {
      assert EventOperand(End).None? by { NoOperand(); }
      assert Image(End, Through(t, s, j)) == End;
    }
  }

  lemma NoOperand()
    ensures EventOperand(End).None?
  {
  }

  lemma DelayAgain(t: Text, u: Text, s: State, op: nat, inDef: bool)
    requires Tidy(t, s) && t.Ch? && t.head != '\n' && op > 0 && Calm(t, s, op) && u == t.Drop(op)
    requires TidyDelay(u, Through(t, s, op))
    requires DelaySite(t, u, op, DefNow(s, t)).None? && (DefNow(s, t) ==> inDef)
    ensures DelaySite(Image(t, s), Image(t, s).Drop(op), op, inDef).None?
  {
    hide Tidy, TidyDelay, DelayEnd, RhsEnd;
    ImageCopied(t, s, op);
    DelayEndImage(u, Through(t, s, op));
    if DelayEnd(u).Some? { ControlRefused(t, s, op, DelayEnd(u).value); }
  }

  lemma EventAgain(t: Text, s: State, at: nat, c: Text, d: Text, inDef: bool)
    requires Tidy(t, s) && t.Ch? && t.head != '\n' && Calm(t, s, at + 1)
    requires EventSite(t, at, c, DefNow(s, t)).None? && (DefNow(s, t) ==> inDef)
    ensures EventSite(Image(t, s), at, d, inDef).None?
  {
    hide Tidy, EventControlAt, RhsEnd;
    ImageCopied(t, s, at + 1);
    EventControlImage(t.Drop(at + 1), Through(t, s, at + 1));
    if EventControlAt(t.Drop(at + 1)).Some? {
      ControlRefused(t, s, at + 1, EventControlAt(t.Drop(at + 1)).value.ctl);
    }
  }

  lemma ControlRefused(t: Text, s: State, m: nat, k: nat)
    requires Tidy(t, s) && t.Ch? && t.head != '\n' && m > 0 && Calm(t, s, m)
    requires Calm(t.Drop(m), Through(t, s, m), k)
    requires var r := RhsEnd(t.Drop(m).Drop(k)); r.Some? ==> DefNow(s, t) && Broken(t, m + k + r.value, false)
    ensures var R := RhsEnd(Image(t, s).Drop(m).Drop(k));
            R.Some? ==> DefNow(s, t) && Broken(Image(t, s), m + k + R.value, false)
  {
    CopiedMore(t, s, m, k);
    DropMore(t, m, k);
    RefusedAgain(t, s, m + k);
    DropMore(Image(t, s), m, k);
  }

  lemma {:induction false} StartsImage(t: Text, p: Text, s: State)
    requires s.mode == Code && !Gate(s.recent) && Dull(p)
    ensures Starts(Image(t, s), p) == Starts(t, p)
  {
    if p.Ch? && t.Ch? {
      UngatedNoSite(t, s);
      ImageReads(t, s);
      if t.head == p.head { StartsImage(t.tail, p.tail, After(s, t)); }
    }
  }

  /** The same for a first character at which a gate may be open. */
  lemma StartsImageGated(t: Text, p: Text, s: State)
    requires s.mode == Code && t.Ch? && SiteAt(t, s).None? && p.Ch? && Dull(p) && !Space(p.head)
    ensures Starts(Image(t, s), p) == Starts(t, p)
  {
    ImageReads(t, s);
    if t.head == p.head {
      StartsImage(t.tail, p.tail, After(s, t));
    }
  }

  lemma WordDull(p: Text)
    requires AllWord(p)
    ensures Dull(p)
  {
    if p.Ch? { WordDull(p.tail); }
  }

  /** The count of a refused repeat control, up to the `@`, reads the same in the rewriting. */
  lemma CountImage(v: Text, s: State)
    requires s.mode == Code && !Gate(s.recent) && TidyCount(v, s)
    ensures AfterCount(Image(v, s)) == AfterCount(v)
    ensures AfterCount(v).Some? ==> Calm(v, s, AfterCount(v).value + 1)
  {
    hide SiteAt, AtOffset, Image;
    if v.Ch? {
      UngatedNoSite(v, s);
      ImageReads(v, s);
      if v.head == '(' {
        var k := ParenEnd(v.tail, 1).value;
        ImageCopied(v, s, 1 + k);
        ParenShared(v.tail, Image(v, s).tail, 1);
        assert v.Drop(1 + k) == v.tail.Drop(k) && Image(v, s).Drop(1 + k) == Image(v, s).tail.Drop(k);
        AtSignImage(v.tail.Drop(k), Through(v, s, 1 + k));
        if AfterCount(v).Some? { CalmMore(v, s, 1 + k, AtOffset(v.tail.Drop(k)).value + 1); }
      }
    } else {
      assert Image(End, s) == End by { EmptyImage(s); }
    }
  }

  lemma EmptyImage(s: State)
    ensures Image(End, s) == End
  {
  }

  /** From `u`, the text after `repeat`: the control up to its `@` reads the same. */
  lemma RepeatImage(u: Text, s: State)
    requires s.mode == Code && !Gate(s.recent) && TidyRepeat(u, s)
    ensures AfterRepeat(Image(u, s)) == AfterRepeat(u)
    ensures AfterRepeat(u).Some? ==> Calm(u, s, AfterRepeat(u).value + 1)
  {
    hide TidyCount, SiteAt, TriviaEnd;
    var j := TriviaEnd(u, Code);
    var v, z := u.Drop(j), Through(u, s, j);
    TriviaCopied(u, s);
    ImageTrivia(u, s);
    ImageCopied(u, s, j);
    if v.Ch? {
      CountImage(v, z);
      var n := AfterCount(v);
      if n.Some? { CalmMore(u, s, j, n.value + 1); }
    }
  }

  lemma OneStep(t: Text, s: State)
    requires t.Ch? && SiteAt(t, s).None?
    ensures Copied(t, s, 1) && Through(t, s, 1) == After(s, t)
  {
    assert Copied(t.tail, After(s, t), 0);
    assert Through(t.tail, After(s, t), 0) == After(s, t);
  }

  lemma AtSignImage(w: Text, s: State)
    requires s.mode == Code && !Gate(s.recent)
    ensures AtOffset(Image(w, s)) == AtOffset(w)
    ensures AtOffset(w).Some? ==> Calm(w, s, AtOffset(w).value + 1)
  {
    var a := TriviaEnd(w, Code);
    TriviaCopied(w, s);
    ImageTrivia(w, s);
    ImageCopied(w, s, a);
    var x, z := w.Drop(a), Through(w, s, a);
    if x.Ch? {
      UngatedNoSite(x, z);
      ImageReads(x, z);
      if x.head == '@' {
        OneStep(x, z);
        CalmMore(w, s, a, 1);
      }
    }
  }

  lemma StillRepeat(t: Text, s: State)
    requires s.mode == Code && t.Ch? && SiteAt(t, s).None?
    ensures IsRepeat(Image(t, s)) == IsRepeat(t)
  {
    RepeatWord();
    WordDull(Of("repeat"));
    StartsImageGated(t, Of("repeat"), s);
  }

  /** The six letters of `repeat` are copied. */
  lemma RepeatCopied(t: Text, s: State)
    requires s.mode == Code && IsRepeat(t) && SiteAt(t, s).None?
    ensures Calm(t, s, 6)
  {
    RepeatWord();
    WordDull(Of("epeat"));
    OneStep(t, s);
    assert Starts(t.tail, Of("epeat"));
    DullCopied(t.tail, Of("epeat"), After(s, t));
    assert t.Drop(1) == t.tail;
    CalmMore(t, s, 1, 5);
  }

  lemma SameRepeat(t: Text, s: State)
    requires s.mode == Code && IsRepeat(t) && SiteAt(t, s).None? && TidyRepeat(t.Drop(6), Through(t, s, 6))
    ensures var a, b := RepeatAt(t), RepeatAt(Image(t, s));
            && (a.None? <==> b.None?)
            && (a.Some? ==> a.value.1 == b.value.1 && Calm(t, s, a.value.1 + 1))
  {
    hide SiteAt, TidyRepeat, AfterRepeat, CountText;
    RepeatCopied(t, s);
    ImageCopied(t, s, 6);
    RepeatImage(t.Drop(6), Through(t, s, 6));
    if RepeatAt(t).Some? { CalmMore(t, s, 6, AfterRepeat(t.Drop(6)).value + 1); }
  }

  lemma RepeatAgain(t: Text, s: State, inDef: bool)
    requires Tidy(t, s) && Plain(s.mode, t) && t.head != '\n' && IsRepeat(t) && SiteAt(t, s).None?
    requires TidyRepeat(t.Drop(6), Through(t, s, 6))
    requires RepeatAt(t).Some? ==> EventSite(t, RepeatAt(t).value.1, RepeatAt(t).value.0, DefNow(s, t)).None?
    requires DefNow(s, t) ==> inDef
    ensures var R := RepeatAt(Image(t, s));
            R.Some? ==> EventSite(Image(t, s), R.value.1, R.value.0, inDef).None?
  {
    hide TidyRepeat, SiteAt;
    SameRepeat(t, s);
    if RepeatAt(t).Some? {
      EventAgain(t, s, RepeatAt(t).value.1, RepeatAt(t).value.0, RepeatAt(Image(t, s)).value.0, inDef);
    }
  }

  /** Where nothing is rewritten, the rewritten text offers no site either. */
  lemma NoSiteAgain(t: Text, s: State, r: Recent, inDef: bool)
    requires Tidy(t, s) && Plain(s.mode, t) && Gate(s.recent) && SiteAt(t, s).None?
    requires DefNow(s, t) ==> inDef
    ensures FindSite(Image(t, s), r, inDef).None?
  {
    var T := Image(t, s);
    ImageReads(t, s);
    StillRepeat(t, s);
    OneStep(t, s);
    if t.head == '@' {
      assert t.Drop(1) == t.tail;
      EventAgain(t, s, 0, Of("1"), Of("1"), inDef);
    } else if IsRepeat(t) {
      RepeatWord();
      assert EventStart(t) == RepeatAt(t);
      RepeatAgain(t, s, inDef);
    } else if t.head == '#' {
      HashAgain(t, s, inDef);
    }
  }

  lemma HashAgain(t: Text, s: State, inDef: bool)
    requires Tidy(t, s) && Plain(s.mode, t) && Gate(s.recent) && SiteAt(t, s).None? && t.head == '#'
    requires DefNow(s, t) ==> inDef
    ensures var T := Image(t, s);
            && HashLength(T) == HashLength(t) && HashLength(t) > 0
            && DelaySite(T, if HashLength(t) == 2 then T.tail.tail else T.tail, HashLength(t), inDef).None?
  {
    hide DelayAt, EventSite, RepeatAt, TidyRepeat, TidyDelay;
    RepeatWord();
    var T, z := Image(t, s), After(s, t);
    ImageReads(t, s);
    OneStep(t, s);
    assert t.Drop(1) == t.tail && T.Drop(1) == T.tail;
    if t.tail.Ch? {
      UngatedNoSite(t.tail, z);
      ImageReads(t.tail, z);
    }
    if HashLength(t) == 2 {
      OneStep(t.tail, z);
      CalmMore(t, s, 1, 1);
      assert t.tail.Drop(1) == t.tail.tail && T.tail.Drop(1) == T.tail.tail;
      DelayAgain(t, t.tail.tail, s, 2, inDef);
    } else {
      DelayAgain(t, t.tail, s, 1, inDef);
    }
  }

  // ------------------------------------------------------------- the second pass

  /** In front of these characters a `=` is an assignment operator whatever came before them. */
  predicate Neutral(c: char) {
    c == ';' || c == '('
  }

  /** The significant characters behind the two passes open the same gates, now and later. */
  predicate Similar(p: Recent, q: Recent) {
    p.p1 == q.p1 && (Neutral(p.p1) || (p.p2 == q.p2 && (Neutral(p.p2) || p.p3 == q.p3)))
  }

  /** The second pass is where the first one was, possibly inside a `define line the first was not in. */
  predicate Twin(s: State, u: State) {
    s.mode == u.mode && Similar(s.recent, u.recent) && (s.inDef ==> u.inDef) && s.esc == u.esc
  }

  lemma DefineDull()
    ensures Of("`define").Ch? && Of("`define").head == '`' && Dull(Of("`define"))
  {
    DullFrom("`define", 0);
  }

  lemma {:induction false} DullFrom(s: string, i: nat)
    requires i <= |s| && forall k :: 0 <= k < |s| ==> s[k] != '=' && s[k] != '/' && s[k] != '"'
    ensures Dull(From(s, i))
    decreases |s| - i
  {
    if i < |s| { DullFrom(s, i + 1); }
  }

  lemma TwinDefNow(t: Text, s: State, u: State)
    requires t.Ch? && SiteAt(t, s).None? && Twin(s, u)
    ensures DefNow(u, Image(t, s)) == DefNow(u, t) && (DefNow(s, t) ==> DefNow(u, t))
  {
    ImageReads(t, s);
    if Plain(s.mode, t) {
      DefineDull();
      StartsImageGated(t, Of("`define"), s);
    }
  }

  lemma TwinAfter(t: Text, s: State, u: State)
    requires t.Ch? && SiteAt(t, s).None? && Twin(s, u)
    ensures After(u, Image(t, s)) == After(u, t) && Twin(After(s, t), After(u, t))
  {
    ImageReads(t, s);
    TwinDefNow(t, s, u);
  }

  /** A character copied by the first pass is copied by the second. */
  lemma CopiedAgain(t: Text, s: State, u: State)
    requires Tidy(t, s) && t.Ch? && SiteAt(t, s).None? && Twin(s, u)
    ensures SiteAt(Image(t, s), u).None?
  {
    hide FindSite;
    ImageReads(t, s);
    if Plain(s.mode, t) && Gate(s.recent) {
      TwinDefNow(t, s, u);
      NoSiteAgain(t, s, u.recent, DefNow(u, Image(t, s)));
    } else {
      UngatedTwin(t, s, u);
    }
  }

  lemma UngatedTwin(t: Text, s: State, u: State)
    requires t.Ch? && SiteAt(t, s).None? && Twin(s, u) && !(Plain(s.mode, t) && Gate(s.recent))
    ensures SiteAt(Image(t, s), u).None?
  {
    ImageReads(t, s);
  }

  lemma NoTrigger(t: Text, s: State)
    requires t.Ch? && !Trigger(t.head)
    ensures SiteAt(t, s).None?
  {
    RepeatWord();
  }

  lemma {:induction false} AllWordCopied(p: Text, y: Text, s: State)
    requires s.mode == Code && !Gate(s.recent) && AllWord(p)
    ensures Calm(p.Then(y), s, p.Size()) && Through(p.Then(y), s, p.Size()) == Through(p, s, p.Size())
  {
    UngatedNoSite(p.Then(y), s);
    if p.Ch? {
      DefineDull();
      assert After(s, p.Then(y)) == After(s, p);
      AllWordCopied(p.tail, y, After(s, p.Then(y)));
    }
  }

  /** Up to its arguments a marker call is copied, whatever they are. */
  lemma MarkerCopied(marker: Text, x: Text, s: State)
    requires s.mode == Code && AllWord(marker) && marker.Ch? && marker.head == '$'
    ensures var t, n := marker.Then(Ch('(', x)), marker.Size() + 1;
      && Copied(t, s, n) && t.Drop(n) == x && Through(t, s, n) == AtArguments(marker, s)
    ensures AtArguments(marker, s).mode == Code && Similar(CALL_OPEN, AtArguments(marker, s).recent)
  {
    hide SiteAt;
    var call := Ch('(', x);
    var t, m := marker.Then(call), marker.Size();
    DefineDull();
    NoTrigger(t, s);
    OneStep(t, s);
    assert After(s, t) == After(s, marker);
    AllWordCopied(marker.tail, call, After(s, t));
    ThenSplits(marker.tail, call);
    assert t.Drop(1) == marker.tail.Then(call);
    CalmMore(t, s, 1, marker.tail.Size());
    ThenSplits(marker, call);
    var z := Through(t, s, m);
    assert z == Through(marker, s, m);
    UngatedNoSite(call, z);
    OneStep(call, z);
    CopiedMore(t, s, m, 1);
    assert call.Drop(1) == x.Drop(0) == x;
    DropMore(t, m, 1);
    assert After(z, call) == AtArguments(marker, s);
  }

  /** The state behind the opening parenthesis of a marker call. */
  function AtArguments(marker: Text, s: State): State {
    var z := Through(marker, s, marker.Size());
    State(z.mode, Push(z.recent, '('), z.inDef, false)
  }

  lemma {:induction false} CopiedParts(t: Text, s: State, m: nat, n: nat)
    ensures Copied(t, s, m + n) <==> Copied(t, s, m) && Copied(t.Drop(m), Through(t, s, m), n)
    ensures Through(t, s, m + n) == Through(t.Drop(m), Through(t, s, m), n)
  {
    hide SiteAt, After;
    if m > 0 && t.Ch? {
      CopiedParts(t.tail, After(s, t), m - 1, n);
    }
  }

  /** What a call does to the second pass does not depend on what follows it. */
  lemma CallAlone(marker: Text, args: Text, more: Text, s: State)
    requires s.mode == Code && AllWord(marker) && marker.Ch? && marker.head == '$'
    requires Balanced(args, Code, 1) && Legible(args, Code, CALL_OPEN, 1)
    ensures var c := marker.Then(Ch('(', args));
      var t, n := marker.Then(Ch('(', args.Then(more))), c.Size();
      && (Copied(t, s, n) <==> Copied(c, s, n)) && Through(t, s, n) == Through(c, s, n)
      && Through(c, s, n).mode == Code && (NoSemi(args, Code) ==> Copied(c, s, n))
  {
    hide Copied, Through, Balanced, Legible, NoSemi;
    var c, t, m := marker.Then(Ch('(', args)), marker.Then(Ch('(', args.Then(more))), marker.Size() + 1;
    MarkerCopied(marker, args, s);
    MarkerCopied(marker, args.Then(more), s);
    CopiedAlone(args, more, AtArguments(marker, s), CALL_OPEN, 1);
    CopiedParts(t, s, m, args.Size());
    CopiedParts(c, s, m, args.Size());
    ThenSplits(marker, Ch('(', args));
  }

  /** The same for what was written for a site. */
  lemma ShowAlone(p: Piece, more: Text, s: State)
    requires s.mode == Code && !p.Copy? && TidyPiece(p)
    ensures var c := Show(p, End);
      var t, n := Show(p, more), c.Size();
      && (Copied(t, s, n) <==> Copied(c, s, n)) && Through(t, s, n) == Through(c, s, n)
      && Through(c, s, n).mode == Code && (NoSemi(Args(p, CALL_CLOSE), Code) ==> Copied(c, s, n))
  {
    hide Copied, Through, Balanced, Legible, NoSemi;
    MarkerWord(p);
    MarkerHead(p);
    ArgsThen(p, CALL_CLOSE, more);
    CallAlone(Of(Marker(p)), Args(p, CALL_CLOSE), more, s);
  }

  // ------------------------------------- the marker call stays within its line

  ghost predicate Unbroken(x: Text) {
    !Broken(x, x.Size(), false)
  }

  lemma {:induction false} UnbrokenThen(a: Text, b: Text, esc: bool)
    requires !Broken(a, a.Size(), esc) && Unbroken(b)
    ensures !Broken(a.Then(b), a.Size() + b.Size(), esc)
  {
    if a.Ch? { UnbrokenThen(a.tail, b, a.head == '\\'); }
  }

  lemma JoinUnbroken(a: Text, b: Text)
    requires Unbroken(a) && Unbroken(b)
    ensures Unbroken(a.Then(b))
  {
    UnbrokenThen(a, b, false);
    ThenSplits(a, b);
  }

  lemma {:induction false} UnbrokenSlice(t: Text, n: nat, esc: bool)
    requires !Broken(t, n, esc)
    ensures !Broken(t.Take(n), t.Take(n).Size(), esc)
  {
    if n > 0 && t.Ch? { UnbrokenSlice(t.tail, n - 1, t.head == '\\'); }
  }

  lemma {:induction false} BrokenLonger(t: Text, m: nat, n: nat, esc: bool)
    requires m <= n && !Broken(t, n, esc)
    ensures !Broken(t, m, esc)
  {
    if m > 0 && t.Ch? { BrokenLonger(t.tail, m - 1, n - 1, t.head == '\\'); }
  }

  /** A stretch of an unbroken line that no backslash precedes. */
  lemma InnerUnbroken(t: Text, a: nat, n: nat)
    requires a <= t.Size() && !Broken(t, a + n, false) && !EscAt(t, a, false)
    ensures !Broken(t.Drop(a), n, false) && Unbroken(t.Drop(a).Take(n))
  {
    BrokenParts(t, a, n, false);
    UnbrokenSlice(t.Drop(a), n, false);
  }

  lemma {:induction false} EscParts(t: Text, a: nat, b: nat, esc: bool)
    ensures EscAt(t, a + b, esc) == EscAt(t.Drop(a), b, EscAt(t, a, esc))
  {
    if a > 0 && t.Ch? { EscParts(t.tail, a - 1, b, t.head == '\\'); }
  }

  lemma {:induction false} WordEsc(t: Text, esc: bool)
    requires WordEnd(t) > 0
    ensures !EscAt(t, WordEnd(t), esc)
  {
    if t.tail.Ch? && WordChar(t.tail.head) {
      WordEsc(t.tail, t.head == '\\');
    } else {
      assert EscAt(t.tail, 0, t.head == '\\') == (t.head == '\\');
    }
  }

  lemma {:induction false} RawEsc(t: Text, m: Mode, depth: nat, esc: bool)
    requires (m == Code || InString(m)) && depth > 0 && RawEnd(t, m, depth).Some?
    ensures !EscAt(t, RawEnd(t, m, depth).value, esc)
  {
    if InString(m) {
      RawEsc(t.tail, Next(m, t), depth, t.head == '\\');
    } else if t.head == '"' {
      RawEsc(t.tail, Str, depth, false);
    } else if !(Closes(t.head) && depth == 1) {
      RawEsc(t.tail, Code, if Opens(t.head) then depth + 1 else if Closes(t.head) then depth - 1 else depth, t.head == '\\');
    }
  }

  /** A timing control does not end with a backslash. */
  lemma ControlEsc(t: Text, esc: bool)
    requires DelayEnd(t).Some?
    ensures !EscAt(t, DelayEnd(t).value, esc)
  {
    var j := TriviaEnd(t, Code);
    var u := t.Drop(j);
    EscParts(t, j, OperandEnd(u).value, esc);
    if u.Ch? && u.head == '(' {
      RawEsc(u.tail, Code, 1, false);
    } else {
      WordEsc(u, EscAt(t, j, esc));
    }
  }

  lemma ControlFits(t: Text)
    requires DelayEnd(t).Some?
    ensures DelayEnd(t).value <= t.Size()
  {
    var j := TriviaEnd(t, Code);
    var u := t.Drop(j);
    TriviaFits(t, Code);
    DropSize(t, j);
    if u.Ch? && u.head == '(' { RawFits(u.tail, Code, 1); } else { WordFits(u); }
  }

  lemma {:induction false} TrimStartUnbroken(t: Text, esc: bool)
    requires !Broken(t, t.Size(), esc)
    ensures Unbroken(TrimStart(t))
  {
    if t.Ch? && TrimSpace(t.head) { TrimStartUnbroken(t.tail, t.head == '\\'); }
  }

  lemma {:induction false} TrimEndUnbroken(t: Text, esc: bool)
    requires !Broken(t, t.Size(), esc)
    ensures !Broken(TrimEnd(t), TrimEnd(t).Size(), esc)
  {
    if !AllTrimSpace(t) { TrimEndUnbroken(t.tail, t.head == '\\'); }
  }

  lemma {:induction false} SigUnbroken(t: Text, esc: bool)
    requires SigChars(t)
    ensures !Broken(t, t.Size(), esc)
  {
    if t.Ch? { SigUnbroken(t.tail, t.head == '\\'); }
  }

  lemma {:induction false} WordUnbroken(t: Text, n: nat, esc: bool)
    requires n <= WordEnd(t)
    ensures SigChars(t.Take(n))
  {
    if n > 0 { WordUnbroken(t.tail, n - 1, t.head == '\\'); }
  }

  lemma AllWordUnbroken(p: Text)
    requires AllWord(p)
    ensures SigChars(p)
  {
    if p.Ch? { AllWordUnbroken(p.tail); }
  }

  lemma EventSig(t: Text)
    requires EventControlAt(t).Some?
    ensures SigChars(EventControlAt(t).value.sig)
  {
    var u := t.Drop(TriviaEnd(t, Code));
    if u.head != '(' { WordUnbroken(u, WordEnd(u), false); }
  }

  lemma CommaUnbroken(c: char, x: Text)
    requires c != '\n' && Unbroken(x)
    ensures Unbroken(Ch(c, x))
  {
    BrokenPermissive(x, x.Size());
  }

  lemma BrokenPermissive(x: Text, n: nat)
    requires !Broken(x, n, false)
    ensures !Broken(x, n, true)
  {
  }

  lemma DelayCallUnbroken(ctl: Text, rhs: Text)
    requires Unbroken(ctl) && Unbroken(rhs)
    ensures Unbroken(ctl.Then(Ch(',', rhs.Then(Ch(')', End)))))
  {
    CommaUnbroken(')', End);
    JoinUnbroken(rhs, Ch(')', End));
    CommaUnbroken(',', rhs.Then(Ch(')', End)));
    JoinUnbroken(ctl, Ch(',', rhs.Then(Ch(')', End))));
  }

  lemma EventCallUnbroken(count: Text, edge: char, sig: Text, rhs: Text)
    requires Unbroken(count) && edge != '\n' && SigChars(sig) && Unbroken(rhs)
    ensures Unbroken(count.Then(Ch(',', Ch(edge, Ch(',', sig.Then(Ch(',', rhs.Then(Ch(')', End)))))))))
  {
    SigUnbroken(sig, false);
    DelayCallUnbroken(sig, rhs);
    var tail := sig.Then(Ch(',', rhs.Then(Ch(')', End))));
    CommaUnbroken(',', tail);
    CommaUnbroken(edge, Ch(',', tail));
    CommaUnbroken(',', Ch(edge, Ch(',', tail)));
    JoinUnbroken(count, Ch(',', Ch(edge, Ch(',', tail))));
  }

  lemma {:induction false} UnbrokenPrefix(a: Text, b: Text, esc: bool)
    requires !Broken(a, a.Size(), esc)
    ensures !Broken(a.Then(b), a.Size(), esc)
  {
    if a.Ch? { UnbrokenPrefix(a.tail, b, a.head == '\\'); }
  }

  lemma RhsUnbroken(u: Text, ctl: nat, rhs: nat)
    requires DelayEnd(u) == Some(ctl) && !Broken(u, ctl + rhs, false)
    ensures Unbroken(u.Take(ctl)) && Unbroken(u.Drop(ctl).Take(rhs))
  {
    ControlEsc(u, false);
    ControlFits(u);
    InnerUnbroken(u, ctl, rhs);
    BrokenLonger(u, ctl, ctl + rhs, false);
    UnbrokenSlice(u, ctl, false);
  }

  lemma HashEsc(t: Text)
    requires HashLength(t) > 0
    ensures HashLength(t) <= t.Size() && !EscAt(t, HashLength(t), false)
  {
    if HashLength(t) == 2 { assert !EscAt(t.tail, 1, false); }
  }

  lemma DelayUnbroken(t: Text, u: Text, op: nat)
    requires HashLength(t) == op > 0 && u == t.Drop(op) && DelaySite(t, u, op, true).Some?
    ensures Unbroken(Args(DelaySite(t, u, op, true).value.piece, Ch(')', End)))
  {
    hide DelayEnd, RhsEnd, Broken, EscAt, Unbroken;
    var e := DelayAt(u).value;
    HashEsc(t);
    InnerUnbroken(t, op, e.ctl + e.rhs);
    RhsUnbroken(u, e.ctl, e.rhs);
    DelayCallUnbroken(u.Take(e.ctl), u.Drop(e.ctl).Take(e.rhs));
  }

  lemma EscBehind(t: Text, n: nat)
    requires t.Drop(n).Ch? && t.Drop(n).head != '\\'
    ensures !EscAt(t, n + 1, false) && n + 1 <= t.Size() && t.Drop(n + 1) == t.Drop(n).tail
  {
    EscParts(t, n, 1, false);
    assert !EscAt(t.Drop(n), 1, EscAt(t, n, false)) by {
      assert EscAt(t.Drop(n).tail, 0, false) == false;
    }
    DropSize(t, n);
    DropMore(t, n, 1);
    assert t.Drop(n).Drop(1) == t.Drop(n).tail;
  }

  lemma TrimUnbroken(t: Text, a: nat, n: nat)
    requires a <= t.Size() && !Broken(t, a + n, false) && !EscAt(t, a, false)
    ensures Unbroken(Trim(t.Drop(a).Take(n)))
  {
    var x := t.Drop(a).Take(n);
    InnerUnbroken(t, a, n);
    TrimStartUnbroken(x, false);
    TrimEndUnbroken(TrimStart(x), false);
  }

  lemma CountUnbroken(t: Text, n: nat)
    requires IsRepeat(t) && RepeatAt(t).Some? && RepeatAt(t).value.1 <= n && !Broken(t, n, false)
    ensures Unbroken(CountText(t.Drop(6)))
  {
    var j := TriviaEnd(t.Drop(6), Code);
    var v := t.Drop(6).Drop(j);
    var k := ParenEnd(v.tail, 1).value;
    DropMore(t, 6, j);
    EscBehind(t, 6 + j);
    BrokenLonger(t, 6 + j + 1 + (k - 1), n, false);
    TrimUnbroken(t, 6 + j + 1, k - 1);
  }

  lemma EventUnbroken(t: Text, at: nat, count: Text)
    requires EventSite(t, at, count, true).Some? && Unbroken(count)
    requires t.Drop(at).Ch? && t.Drop(at).head == '@'
    ensures Unbroken(Args(EventSite(t, at, count, true).value.piece, Ch(')', End)))
  {
    hide EventControlAt;
    var e := EventControlAt(t.Drop(at + 1)).value;
    EscBehind(t, at);
    EventControlEnd(t.Drop(at + 1));
    EventSig(t.Drop(at + 1));
    EventEdge(t.Drop(at + 1));
    EventRestUnbroken(t, at + 1, count, e);
  }

  lemma EventRestUnbroken(t: Text, m: nat, count: Text, e: EventControl)
    requires EventRest(t, m, count, e, true).Some? && Unbroken(count)
    requires m <= t.Size() && !EscAt(t, m, false)
    requires DelayEnd(t.Drop(m)) == Some(e.ctl) && SigChars(e.sig) && e.edge != '\n'
    ensures Unbroken(Args(EventRest(t, m, count, e, true).value.piece, Ch(')', End)))
  {
    var rhs := RhsEnd(t.Drop(m).Drop(e.ctl)).value;
    InnerUnbroken(t, m, e.ctl + rhs);
    RhsUnbroken(t.Drop(m), e.ctl, rhs);
    EventCallUnbroken(count, e.edge, e.sig, t.Drop(m).Drop(e.ctl).Take(rhs));
  }

  lemma EventEdge(t: Text)
    requires EventControlAt(t).Some?
    ensures EventControlAt(t).value.edge != '\n'
  {
  }

  lemma RepeatStart(t: Text)
    requires IsRepeat(t) && RepeatAt(t).Some?
    ensures var x := t.Drop(RepeatAt(t).value.1);
            x.Ch? && x.head == '@'
  {
    var u := t.Drop(6);
    var j := TriviaEnd(u, Code);
    var v := u.Drop(j);
    var k := ParenEnd(v.tail, 1).value;
    var w := v.tail.Drop(k);
    DropMore(v.tail, k, TriviaEnd(w, Code));
    assert v.Drop(1 + k + TriviaEnd(w, Code)) == w.Drop(TriviaEnd(w, Code));
    DropMore(u, j, 1 + k + TriviaEnd(w, Code));
    DropMore(t, 6, j + (1 + k + TriviaEnd(w, Code)));
  }

  lemma HashDrop(t: Text)
    requires HashLength(t) > 0
    ensures t.Drop(HashLength(t)) == if HashLength(t) == 2 then t.tail.tail else t.tail
  {
    assert t.Drop(1) == t.tail;
    assert HashLength(t) == 2 ==> t.tail.Drop(1) == t.tail.tail;
  }

  /** A site accepted inside a `define line is written without leaving the line. */
  lemma ArgsUnbroken(t: Text, r: Recent)
    requires FindSite(t, r, true).Some?
    ensures Unbroken(Args(FindSite(t, r, true).value.piece, Ch(')', End)))
  {
    if t.Ch? && t.head == '@' {
      EventUnbroken(t, 0, Of("1"));
    } else if IsRepeat(t) {
      var (count, at) := RepeatAt(t).value;
      RepeatStart(t);
      CountUnbroken(t, FindSite(t, r, true).value.semi);
      EventUnbroken(t, at, count);
    } else {
      HashDrop(t);
      DelayUnbroken(t, if HashLength(t) == 2 then t.tail.tail else t.tail, HashLength(t));
    }
  }

  lemma ShowUnbroken(p: Piece)
    requires !p.Copy? && Unbroken(Args(p, Ch(')', End)))
    ensures Unbroken(Show(p, End))
  {
    MarkerWord(p);
    AllWordUnbroken(Of(Marker(p)));
    SigUnbroken(Of(Marker(p)), false);
    CommaUnbroken('(', Args(p, Ch(')', End)));
    JoinUnbroken(Of(Marker(p)), Ch('(', Args(p, Ch(')', End))));
  }

  // ------------------------------------------------------------------ the theorem

  /** Behind a rewritten statement both passes are in code, the second still in the line. */
  lemma TwinAtSemi(t: Text, s: State, u: State)
    requires SiteAt(t, s).Some? && Twin(s, u) && TidyPiece(SiteAt(t, s).value.piece)
    ensures var p := SiteAt(t, s).value.piece;
            var w := Through(Image(t, s), u, Show(p, End).Size());
            w.mode == Code && (DefNow(s, t) ==> w.inDef)
  {
    var site := SiteAt(t, s).value;
    var z := Image(t.Drop(site.semi), AtSemi(s, t));
    SiteTrigger(t, s);
    ImageSite(t, s);
    ShowAlone(site.piece, z, u);
    if DefNow(s, t) {
      DefineDull();
      ArgsUnbroken(t, s.recent);
      ShowUnbroken(site.piece);
      ShownParts(site.piece, z);
      UnbrokenPrefix(Show(site.piece, End), z, false);
      BrokenAnyEsc(Image(t, s), Show(site.piece, End).Size(), false, u.esc);
      InDefThrough(Image(t, s), u, Show(site.piece, End).Size());
    }
  }

  lemma TwinAfterSemi(rest: Text, z: State, w: State, Z: Text)
    requires rest.Ch? && rest.head == ';' && Z.Ch? && Z.head == ';' && z.mode == Code && w.mode == Code
    requires z.inDef ==> w.inDef
    ensures Twin(After(z, rest), After(w, Z))
  {
    assert !IsDefine(rest);
  }

  lemma SiteShrinks(t: Text, s: State)
    requires SiteAt(t, s).Some?
    ensures t.Ch? && t.Drop(SiteAt(t, s).value.semi).Size() < t.Size()
  {
    SiteAdvances(t, s.recent, DefNow(s, t));
    DropShrinks(t, SiteAt(t, s).value.semi);
  }

  /** The second pass copies the whole rewriting exactly when no call offers it a site. */
  lemma {:induction false} Again(t: Text, s: State, u: State)
    requires Tidy(t, s) && Twin(s, u)
    ensures Copied(Image(t, s), u, Image(t, s).Size()) <==> Inert(t, s, u)
    ensures SemiFree(t, s) ==> Inert(t, s, u)
    decreases t.Size()
  {
    hide SiteAt, DefNow, TidyPiece, TidyControl, Gate, Plain;
    if t.Ch? {
      if SiteAt(t, s).Some? {
        AgainSite(t, s, u);
      } else {
        CopiedAgain(t, s, u);
        ImageReads(t, s);
        TwinAfter(t, s, u);
        Again(t.tail, After(s, t), After(u, t));
      }
    }
  }

  lemma {:induction false} AgainSite(t: Text, s: State, u: State)
    requires Tidy(t, s) && Twin(s, u) && SiteAt(t, s).Some?
    ensures Copied(Image(t, s), u, Image(t, s).Size()) <==> Inert(t, s, u)
    ensures SemiFree(t, s) ==> Inert(t, s, u)
    decreases t.Size(), 0
  {
    hide SiteAt, DefNow, TidyPiece, TidyControl, Gate, Plain, Copied, Through, NoSemi;
    var site, z := SiteAt(t, s).value, AtSemi(s, t);
    var T, rest, shown := Image(t, s), t.Drop(site.semi), Show(site.piece, End);
    var Z, w := Image(rest, z), Through(shown, u, shown.Size());
    SiteShrinks(t, s);
    SiteText(t, s);
    SiteTrigger(t, s);
    ImageSite(t, s);
    ShownParts(site.piece, Z);
    ThenSplits(shown, Z);
    ShowAlone(site.piece, Z, u);
    TwinAtSemi(t, s, u);
    CopiedParts(T, u, shown.Size(), Z.Size());
    AgainSemi(rest, z, w);
  }

  lemma {:induction false} AgainSemi(rest: Text, z: State, w: State)
    requires Tidy(rest, z) && rest.Ch? && rest.head == ';' && z.mode == Code == w.mode && (z.inDef ==> w.inDef)
    ensures Copied(Image(rest, z), w, Image(rest, z).Size()) <==> Inert(rest, z, w)
    ensures SemiFree(rest, z) ==> Inert(rest, z, w)
    decreases rest.Size()
  {
    var Z := Image(rest, z);
    NoTrigger(rest, z);
    NoTrigger(rest, w);
    ImageReads(rest, z);
    NoTrigger(Z, w);
    hide SiteAt, TidyPiece, TidyControl, Gate, Plain;
    TwinAfterSemi(rest, z, w, Z);
    TwinAfterSemi(rest, z, w, rest);
    Again(rest.tail, After(z, rest), After(w, Z));
  }

  /** A text in which the pass finds a site is changed by it. */
  lemma ChangesAt(t: Text, n: nat)
    requires Copied(t, START, n) && SiteAt(t.Drop(n), Through(t, START, n)).Some?
    ensures Rewritten(t) != t
  {
    var u, z := t.Drop(n), Through(t, START, n);
    ImageCopied(t, START, n);
    SiteTrigger(u, z);
    ImageSite(u, z);
    MarkerHead(SiteAt(u, z).value.piece);
  }

  /** The first site of a text that is not copied whole. */
  lemma {:induction false} FirstSite(t: Text, s: State, n: nat) returns (m: nat)
    requires n <= t.Size() && !Copied(t, s, n)
    ensures Copied(t, s, m) && SiteAt(t.Drop(m), Through(t, s, m)).Some?
  {
    hide SiteAt;
    if SiteAt(t, s).Some? {
      m := 0;
    } else {
      m := FirstSite(t.tail, After(s, t), n - 1);
      m := m + 1;
    }
  }

  /** The pass leaves a text as it is exactly when it finds no site in it. */
  lemma FixedIff(t: Text)
    ensures Rewritten(t) == t <==> Copied(t, START, t.Size())
  {
    if Copied(t, START, t.Size()) {
      CopiedScan(t, START, t.Size());
      Split(t, t.Size());
      DropSize(t, t.Size());
    } else {
      var m := FirstSite(t, START, t.Size());
      ChangesAt(t, m);
    }
  }

  /** On its own output the pass is the identity exactly when no call offers it a site. */
  lemma TwiceIsOnce(t: Text)
    requires Tidy(t, START)
    ensures Rewritten(Rewritten(t)) == Rewritten(t) <==> Inert(t, START, START)
  {
    Again(t, START, START);
    FixedIff(Rewritten(t));
  }

  /** In particular when no argument has a `;`. */
  lemma SemiFreeTwice(t: Text)
    requires Tidy(t, START) && SemiFree(t, START)
    ensures Rewritten(Rewritten(t)) == Rewritten(t)
  {
    Again(t, START, START);
    TwiceIsOnce(t);
  }
}
