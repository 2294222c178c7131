/** The cursor loops of src/intra_delay.rs, proved to compute the pass that IntraDelay specifies. */
module DelayPass {
  import opened Results
  import opened Texts
  import opened Lexing
  import opened IntraDelay
  import DelayLayout

  function Str(t: Text): string {
    if t.End? then "" else [t.head] + Str(t.tail)
  }

  lemma {:induction false} OfStr(t: Text)
    ensures Of(Str(t)) == t
  {
    if t.Ch? {
      OfStr(t.tail);
      AppendFrom([t.head], Str(t.tail), 0);
      assert From([t.head], 0) == Ch(t.head, End) by { assert From([t.head], 1) == End; }
    }
  }

  // ---------------------------------------------------------- control extraction

  /** End of a bracketed group; `start` is just after its opener. */
  method GroupEnd(b: string, start: nat) returns (r: Option<nat>)
    requires start <= |b|
    ensures r == Plus(start, RawEnd(From(b, start), Code, 1))
    ensures r.Some? ==> start < r.value <= |b|
  {
    var k, depth := start, 1;
    ghost var goal := Plus(start, RawEnd(From(b, start), Code, 1));
    while k < |b| && depth > 0
      invariant start <= k <= |b| && depth >= 0
      invariant depth == 0 ==> start < k
      invariant goal == Plus(k, RawEnd(From(b, k), Code, depth))
      decreases |b| - k
    {
      if b[k] == '"' {
        RawSkipsString(b, k, depth);
        k := SkipString(b, k);
        continue;
      }
      if Opens(b[k]) {
        depth := depth + 1;
      } else if Closes(b[k]) {
        depth := depth - 1;
      }
      k := k + 1;
    }
    if depth != 0 {
      return None;
    }
    return Some(k);
  }

  lemma {:induction false} RawOverString(t: Text, m: Mode, depth: nat)
    requires InString(m) && depth > 0
    ensures RawEnd(t, m, depth) == Plus(StringEnd(t, m), RawEnd(t.Drop(StringEnd(t, m)), Code, depth))
  {
    if t.Ch? && Next(m, t) != Code { RawOverString(t.tail, Next(m, t), depth); }
  }

  lemma RawSkipsString(b: string, k: nat, depth: nat)
    requires k < |b| && b[k] == '"' && depth > 0
    ensures var j := k + 1 + StringEnd(From(b, k + 1), Lexing.Str);
            j <= |b| && Plus(k, RawEnd(From(b, k), Code, depth)) == Plus(j, RawEnd(From(b, j), Code, depth))
  {
    SizeFrom(b, k + 1);
    StringFits(From(b, k + 1), Lexing.Str);
    RawOverString(From(b, k + 1), Lexing.Str, depth);
    DropFrom(b, k + 1, StringEnd(From(b, k + 1), Lexing.Str));
  }

  method WordRun(b: string, start: nat) returns (k: nat)
    requires start <= |b|
    ensures k == start + WordEnd(From(b, start)) <= |b|
  {
    k := start;
    while k < |b| && WordChar(b[k])
      invariant start <= k <= |b|
      invariant start + WordEnd(From(b, start)) == k + WordEnd(From(b, k))
    {
      k := k + 1;
    }
  }

  method ParenRun(b: string, start: nat) returns (r: Option<nat>)
    requires start <= |b|
    ensures r == Plus(start, ParenEnd(From(b, start), 1))
    ensures r.Some? ==> start < r.value <= |b|
  {
    var k, depth := start, 1;
    ghost var goal := Plus(start, ParenEnd(From(b, start), 1));
    while k < |b| && depth > 0
      invariant start <= k <= |b| && depth >= 0
      invariant depth == 0 ==> start < k
      invariant goal == Plus(k, ParenEnd(From(b, k), depth))
    {
      assert From(b, k) == Ch(b[k], From(b, k + 1));
      if b[k] == '(' {
        depth := depth + 1;
      } else if b[k] == ')' {
        depth := depth - 1;
      }
      k := k + 1;
    }
    if depth != 0 {
      return None;
    }
    return Some(k);
  }

  /** The `;` of a statement whose right-hand side starts at `k`; none when it is empty. */
  method StatementEnd(b: string, k: nat) returns (r: Option<nat>)
    requires k <= |b|
    ensures r == Plus(k, RhsEnd(From(b, k)))
    ensures r.Some? ==> k <= r.value < |b| && b[r.value] == ';'
  {
    var semi := FindStmtSemi(b, k);
    if semi == None {
      return None;
    }
    ghost var t := From(b, k);
    FoundSemi(t, Code, 0);
    SizeFrom(b, k);
    DropFrom(b, k, semi.value - k);
    TakeFrom(b, k, semi.value - k);
    if IsBlank(Slice(b, k, semi.value)) {
      return None;
    }
    return semi;
  }

  /** Where the delay that starts at `i` ends. */
  method DelayRun(b: string, i: nat) returns (r: Option<nat>)
    requires i <= |b|
    ensures r == Plus(i, DelayEnd(From(b, i)))
    ensures r.Some? ==> i <= r.value <= |b|
  {
    var j := SkipWsComments(b, i);
    DropFrom(b, i, j - i);
    r := OperandRun(b, j);
  }

  method OperandRun(b: string, j: nat) returns (r: Option<nat>)
    requires j <= |b|
    ensures r == Plus(j, OperandEnd(From(b, j)))
    ensures r.Some? ==> j <= r.value <= |b|
  {
    if j < |b| && b[j] == '(' {
      r := GroupEnd(b, j + 1);
    } else {
      var k := WordRun(b, j);
      r := if k == j then None else Some(k);
    }
  }

  /** `i` is the index after the `#` or `##`: where the delay ends and where the `;` is. */
  method ExtractDelayAndRhs(b: string, i: nat) returns (r: Option<(nat, nat)>)
    requires i <= |b|
    ensures r.None? <==> DelayAt(From(b, i)).None?
    ensures r.Some? ==> i <= r.value.0 <= r.value.1 < |b| && b[r.value.1] == ';' &&
                        DelayAt(From(b, i)) == Some(Extent(r.value.0 - i, r.value.1 - r.value.0))
  {
    var end := DelayRun(b, i);
    if end == None {
      return None;
    }
    DropFrom(b, i, end.value - i);
    var semi := StatementEnd(b, end.value);
    if semi == None {
      return None;
    }
    r := Some((end.value, semi.value));
  }

  /** `i` is the index after the `@`. */
  method ExtractEvent(b: string, i: nat) returns (r: Option<EventControl>)
    requires i <= |b|
    ensures r == EventControlAt(From(b, i))
    ensures r.Some? ==> i + r.value.ctl <= |b|
  {
    var j := SkipWsComments(b, i);
    DropFrom(b, i, j - i);
    var e := ExtractOperand(b, j);
    r := Later(j - i, e);
  }

  method ExtractOperand(b: string, j: nat) returns (r: Option<EventControl>)
    requires j <= |b|
    ensures r == EventOperand(From(b, j))
    ensures r.Some? ==> j + r.value.ctl <= |b|
  {
    if j >= |b| {
      return None;
    }
    if b[j] != '(' {
      if !NameStart(b[j]) {
        return None;
      }
      var k := WordRun(b, j);
      TakeFrom(b, j, k - j);
      return Some(EventControl('0', Slice(b, j, k), k - j));
    }
    var k := GroupEnd(b, j + 1);
    if k == None {
      return None;
    }
    TakeFrom(b, j + 1, k.value - 1 - (j + 1));
    match EdgeAndSig(Trim(Slice(b, j + 1, k.value - 1))) {
      case None => return None;
      case Some(es) => return Some(EventControl(es.0, es.1, k.value - j));
    }
  }

  /** `i` is at `repeat`: the trimmed count and the index of the `@`. */
  method ExtractRepeat(b: string, i: nat) returns (r: Option<(Text, nat)>)
    requires i + 6 <= |b|
    ensures r.None? <==> RepeatAt(From(b, i)).None?
    ensures r.Some? ==> i < r.value.1 < |b| && RepeatAt(From(b, i)) == Some((r.value.0, r.value.1 - i))
  {
    hide AtOffset, TriviaEnd, ParenEnd, Trim;
    DropFrom(b, i, 6);
    var j := SkipWsComments(b, i + 6);
    DropFrom(b, i + 6, j - (i + 6));
    if j >= |b| || b[j] != '(' {
      return None;
    }
    var k := ParenRun(b, j + 1);
    if k == None {
      return None;
    }
    var count := Trim(Slice(b, j + 1, k.value - 1));
    TakeFrom(b, j + 1, k.value - 1 - (j + 1));
    DropFrom(b, j + 1, k.value - (j + 1));
    var at := AtSign(b, k.value);
    if at == None {
      return None;
    }
    return Some((count, at.value));
  }

  method AtSign(b: string, k: nat) returns (r: Option<nat>)
    requires k <= |b|
    ensures r == Plus(k, AtOffset(From(b, k)))
    ensures r.Some? ==> k <= r.value < |b|
  {
    var a := SkipWsComments(b, k);
    DropFrom(b, k, a - k);
    if a < |b| && b[a] == '@' {
      return Some(a);
    }
    return None;
  }

  // ------------------------------------------------------------- one rewriting site

  /** `defineEnd`, when set, is the end of the `define line that index `i` is in. */
  ghost predicate InLine(b: string, i: nat, defineEnd: Option<nat>)
    requires i <= |b|
  {
    i < |b| && b[i] != '\n' && defineEnd.Some? ==> defineEnd.value == i + LineEnd(From(b, i), false)
  }

  lemma {:induction false} LineEndsThere(t: Text, esc: bool)
    ensures var u := t.Drop(LineEnd(t, esc));
            u.End? || u.head == '\n'
  {
    if t.Ch? && !(t.head == '\n' && !esc) { LineEndsThere(t.tail, t.head == '\\'); }
  }

  /** The pass compares indices where the specification looks for an unescaped newline. */
  lemma BeforeLineEnd(b: string, i: nat, semi: nat, defineEnd: Option<nat>)
    requires i <= semi < |b| && b[semi] == ';' && b[i] != '\n' && InLine(b, i, defineEnd)
    ensures defineEnd.Some? ==> (semi < defineEnd.value <==> !Broken(From(b, i), semi - i, false))
  {
    var t := From(b, i);
    SizeFrom(b, i);
    LineEndBroken(t, semi - i, false);
    LineEndsThere(t, false);
    DropFrom(b, i, semi - i);
  }

  /** A site of the text from index `i` on, with the index of its `;`. */
  function Placed(i: nat, site: Option<Site>): Option<(Piece, nat)> {
    match site
    case None => None
    case Some(x) => Some((x.piece, i + x.semi))
  }

  method TryEvent(b: string, i: nat, at: nat, count: Text, defineEnd: Option<nat>) returns (r: Option<(Piece, nat)>)
    requires i <= at < |b| && b[i] != '\n' && InLine(b, i, defineEnd)
    ensures r == Placed(i, EventSite(From(b, i), at - i, count, defineEnd.Some?))
    ensures r.Some? ==> i < r.value.1 < |b| && !r.value.0.Copy?
    ensures r.Some? && defineEnd.Some? ==> r.value.1 < defineEnd.value
  {
    DropFrom(b, i, at + 1 - i);
    var e := ExtractEvent(b, at + 1);
    if e == None {
      return None;
    }
    r := FinishEvent(b, i, at + 1, count, defineEnd, e.value);
  }

  /** The control, whose text starts at index `k`, is `e`; what is left is the right-hand side. */
  method FinishEvent(b: string, i: nat, k: nat, count: Text, defineEnd: Option<nat>, e: EventControl)
    returns (r: Option<(Piece, nat)>)
    requires i < k && k + e.ctl <= |b| && b[i] != '\n' && InLine(b, i, defineEnd)
    ensures r == Placed(i, EventRest(From(b, i), k - i, count, e, defineEnd.Some?))
    ensures r.Some? ==> i < r.value.1 < |b| && !r.value.0.Copy?
    ensures r.Some? && defineEnd.Some? ==> r.value.1 < defineEnd.value
  {
    var rhs := k + e.ctl;
    DropFrom(b, i, k - i);
    DropFrom(b, k, e.ctl);
    var semi := StatementEnd(b, rhs);
    if semi == None {
      return None;
    }
    BeforeLineEnd(b, i, semi.value, defineEnd);
    if defineEnd.Some? && semi.value >= defineEnd.value {
      return None;
    }
    TakeFrom(b, i, rhs - i);
    TakeFrom(b, rhs, semi.value - rhs);
    r := Some((Event(Slice(b, i, rhs), count, e.edge, e.sig, Slice(b, rhs, semi.value)), semi.value));
  }

  /** `op` is the length of the `#` or `##` at `i`. */
  method TryDelay(b: string, i: nat, op: nat, defineEnd: Option<nat>) returns (r: Option<(Piece, nat)>)
    requires op > 0 && i + op <= |b| && b[i] != '\n' && InLine(b, i, defineEnd)
    ensures r == Placed(i, DelaySite(From(b, i), From(b, i + op), op, defineEnd.Some?))
    ensures r.Some? ==> i < r.value.1 < |b| && !r.value.0.Copy?
    ensures r.Some? && defineEnd.Some? ==> r.value.1 < defineEnd.value
  {
    var e := ExtractDelayAndRhs(b, i + op);
    if e == None {
      return None;
    }
    var (ctl, semi) := e.value;
    BeforeLineEnd(b, i, semi, defineEnd);
    if defineEnd.Some? && semi >= defineEnd.value {
      return None;
    }
    TakeFrom(b, i + op, ctl - (i + op));
    DropFrom(b, i + op, ctl - (i + op));
    TakeFrom(b, ctl, semi - ctl);
    var control, rhs := Slice(b, i + op, ctl), Slice(b, ctl, semi);
    r := Some((if op == 1 then Delay(control, rhs) else Cycle(control, rhs), semi));
  }

  lemma {:induction false} StartsFits(t: Text, p: Text)
    requires Starts(t, p)
    ensures p.Size() <= t.Size()
  {
    if p.Ch? { StartsFits(t.tail, p.tail); }
  }

  lemma RepeatFits(b: string, i: nat)
    requires i <= |b| && IsRepeat(From(b, i))
    ensures i + 6 <= |b|
  {
    SizeFrom(b, i);
    SizeFrom("repeat", 0);
    StartsFits(From(b, i), Of("repeat"));
  }

  method FindRewrite(b: string, i: nat, recent: Recent, defineEnd: Option<nat>) returns (r: Option<(Piece, nat)>)
    requires i < |b| && InLine(b, i, defineEnd)
    ensures r == Placed(i, FindSite(From(b, i), recent, defineEnd.Some?))
    ensures r.Some? ==> i < r.value.1 < |b| && !r.value.0.Copy?
    ensures r.Some? ==> b[i] != '\n' && (defineEnd.Some? ==> r.value.1 < defineEnd.value)
  {
    if !Gate(recent) {
      return None;
    }
    var event := FindEvent(b, i);
    if event.Some? {
      var (count, at) := event.value;
      r := TryEvent(b, i, at, count, defineEnd);
    } else if b[i] == '#' && i + 1 < |b| && b[i + 1] == '#' {
      r := TryDelay(b, i, 2, defineEnd);
    } else if b[i] == '#' {
      r := TryDelay(b, i, 1, defineEnd);
    } else {
      r := None;
    }
  }

  /** An event control at `i`: its repeat count and the index of its `@`. */
  method FindEvent(b: string, i: nat) returns (r: Option<(Text, nat)>)
    requires i < |b|
    ensures r.None? <==> EventStart(From(b, i)).None?
    ensures r.Some? ==> b[i] != '\n' && i <= r.value.1 < |b| && EventStart(From(b, i)) == Some((r.value.0, r.value.1 - i))
  {
    if b[i] == '@' {
      return Some((Of("1"), i));
    }
    if IsRepeat(From(b, i)) {
      RepeatFits(b, i);
      assert Of("repeat").Ch? && Of("repeat").head == 'r';
      r := ExtractRepeat(b, i);
      return;
    }
    return None;
  }

  // ------------------------------------------------------------------- the main loop

  /** The loop's `define bookkeeping against the state of the specification. */
  ghost predicate Tracks(b: string, i: nat, s: State, defineEnd: Option<nat>)
    requires i <= |b|
  {
    && (s.inDef <==> defineEnd.Some? && i <= defineEnd.value)
    && (s.inDef ==> defineEnd.value == i + LineEnd(From(b, i), s.esc))
  }

  lemma TracksThrough(b: string, i: nat, n: nat, s: State, defineEnd: Option<nat>)
    requires i + n <= |b| && Tracks(b, i, s, defineEnd)
    requires Through(From(b, i), s, n).inDef <==> s.inDef && !Broken(From(b, i), n, s.esc)
    ensures Tracks(b, i + n, Through(From(b, i), s, n), defineEnd)
  {
    var t := From(b, i);
    SizeFrom(b, i);
    DropFrom(b, i, n);
    LineEndBroken(t, n, s.esc);
    if s.inDef && !Broken(t, n, s.esc) { LineEndThrough(t, s, n); }
  }

  /** What the loop still has to write. */
  ghost function Pending(b: string, i: nat, s: State): Text
    requires i <= |b|
  {
    Render(Scan(From(b, i), s))
  }

  lemma CopyStretch(out: string, b: string, i: nat, n: nat, s: State)
    requires i + n <= |b| && Copied(From(b, i), s, n)
    ensures Of(out).Then(Pending(b, i, s)) == Of(out + b[i..i + n]).Then(Pending(b, i + n, Through(From(b, i), s, n)))
  {
    CopiedScan(From(b, i), s, n);
    TakeFrom(b, i, n);
    DropFrom(b, i, n);
    AppendSlice(out, b, i, i + n);
    ThenAssoc(Of(out), Slice(b, i, i + n), Pending(b, i + n, Through(From(b, i), s, n)));
  }

  lemma ScanSite(t: Text, s: State)
    requires SiteAt(t, s).Some?
    ensures var site := SiteAt(t, s).value;
            Render(Scan(t, s)) == Show(site.piece, Render(Scan(t.Drop(site.semi), AtSemi(s, t))))
  {
  }

  lemma WriteText(out: string, shown: Text, rest: Text)
    ensures Of(out).Then(shown.Then(rest)) == Of(out + Str(shown)).Then(rest)
  {
    OfStr(shown);
    AppendFrom(out, Str(shown), 0);
    ThenAssoc(Of(out), shown, rest);
  }

  /** What the loop knows at index `i`. */
  ghost predicate Loop(src: string, out: string, i: nat, s: State, recent: Recent, defineEnd: Option<nat>) {
    && i <= |src|
    && Rewritten(Of(src)) == Of(out).Then(Pending(src, i, s))
    && (i < |src| ==> s.mode == Code && s.recent == recent)
    && Tracks(src, i, s, defineEnd)
  }

  lemma CommentStep(src: string, out: string, i: nat, s: State, recent: Recent, defineEnd: Option<nat>)
    requires Loop(src, out, i, s, recent, defineEnd) && i < |src|
    ensures var n := TriviaEnd(From(src, i), Code);
            i + n <= |src| && Loop(src, out + src[i..i + n], i + n, Through(From(src, i), s, n), recent, defineEnd)
  {
    var t := From(src, i);
    var n := TriviaEnd(t, Code);
    SizeFrom(src, i);
    TriviaFits(t, Code);
    TriviaCopied(t, s);
    DropFrom(src, i, n);
    CopyStretch(out, src, i, n, s);
    TracksThrough(src, i, n, s, defineEnd);
  }

  lemma StringStep(src: string, out: string, i: nat, s: State, recent: Recent, defineEnd: Option<nat>)
    requires Loop(src, out, i, s, recent, defineEnd) && i < |src| && src[i] == '"'
    ensures var n := 1 + StringEnd(From(src, i + 1), Lexing.Str);
            i + n <= |src| &&
            Loop(src, out + src[i..i + n], i + n, Through(From(src, i), s, n), Push(recent, '"'), defineEnd)
  {
    var t := From(src, i);
    var m := StringEnd(t.tail, Lexing.Str);
    SizeFrom(src, i + 1);
    StringFits(t.tail, Lexing.Str);
    StringCopied(t.tail, After(s, t));
    DropFrom(src, i, 1 + m);
    assert Copied(t, s, 1 + m);
    hide SiteAt, Copied, StringEnd;
    CopyStretch(out, src, i, 1 + m, s);
    TracksThrough(src, i, 1 + m, s, defineEnd);
  }

  lemma CopyTracks(src: string, i: nat, s: State, defineEnd: Option<nat>)
    requires i < |src| && Entered(src, i, s, defineEnd)
    ensures Tracks(src, i + 1, After(s, From(src, i)), defineEnd)
  {
  }

  lemma CopyStep(src: string, out: string, i: nat, s: State, recent: Recent, defineEnd: Option<nat>)
    requires i < |src| && Rewritten(Of(src)) == Of(out).Then(Pending(src, i, s))
    requires Plain(s.mode, From(src, i)) && Copied(From(src, i), s, 1) && s.recent == recent
    requires Entered(src, i, s, defineEnd)
    ensures Loop(src, out + [src[i]], i + 1, After(s, From(src, i)),
                 if Space(src[i]) then recent else Push(recent, src[i]), defineEnd)
  {
    CopyStretch(out, src, i, 1, s);
    CopyTracks(src, i, s, defineEnd);
    assert src[i..i + 1] == [src[i]];
    assert Through(From(src, i), s, 1) == After(s, From(src, i));
  }

  lemma CopiedOne(t: Text, s: State)
    requires t.Ch? && SiteAt(t, s).None?
    ensures Copied(t, s, 1)
  {
    assert Copied(t.tail, After(s, t), 0);
  }

  lemma SiteStep(src: string, out: string, i: nat, s: State, recent: Recent, defineEnd: Option<nat>, piece: Piece, semi: nat)
    requires i < semi < |src| && Rewritten(Of(src)) == Of(out).Then(Pending(src, i, s))
    requires SiteAt(From(src, i), s) == Some(Site(piece, semi - i)) && s.recent == recent
    requires Entered(src, i, s, defineEnd) && src[i] != '\n' && (defineEnd.Some? ==> semi < defineEnd.value)
    ensures Loop(src, out + Str(Show(piece, End)), semi, AtSemi(s, From(src, i)), recent, defineEnd)
  {
    var t := From(src, i);
    var rest := Pending(src, semi, AtSemi(s, t));
    DropFrom(src, i, semi - i);
    ScanSite(t, s);
    ShowThen(piece, rest);
    WriteText(out, Show(piece, End), rest);
    SiteTracks(src, i, s, defineEnd, semi);
  }

  lemma SiteTracks(src: string, i: nat, s: State, defineEnd: Option<nat>, semi: nat)
    requires i < semi < |src| && src[i] != '\n' && Entered(src, i, s, defineEnd)
    requires SiteAt(From(src, i), s).Some? && SiteAt(From(src, i), s).value.semi == semi - i
    requires defineEnd.Some? ==> semi < defineEnd.value
    ensures Tracks(src, semi, AtSemi(s, From(src, i)), defineEnd)
  {
    var t := From(src, i);
    SizeFrom(src, i);
    SiteText(t, s);
    DropFrom(src, i, semi - i);
    if defineEnd.Some? { LineEndFrom(t, semi - i, false); }
  }

  /** The bookkeeping once the loop has left an ended line and entered a new one at `i`. */
  ghost predicate Entered(src: string, i: nat, s: State, defineEnd: Option<nat>)
    requires i < |src|
  {
    && (defineEnd.Some? <==> DefNow(s, From(src, i)))
    && (defineEnd.Some? ==> defineEnd.value == i + LineEnd(From(src, i), s.esc && src[i] == '\n') && i < defineEnd.value)
  }

  /** Leaving an ended `define line: only a newline can be there. */
  lemma LineLeft(src: string, out: string, i: nat, s: State, recent: Recent, defineEnd: Option<nat>)
    requires Loop(src, out, i, s, recent, defineEnd) && i < |src|
    ensures defineEnd.Some? && i >= defineEnd.value ==>
              (src[i] == '\n' && Entered(src, i, s, None)) || Loop(src, out, i, s, recent, None)
    ensures !(defineEnd.Some? && i >= defineEnd.value) && !IsDefine(From(src, i)) ==> Entered(src, i, s, defineEnd)
  {
    LineEndsThere(From(src, i), s.esc);
  }

  lemma LineEntered(src: string, i: nat, s: State, e: nat)
    requires i < |src| && s.mode == Code && IsDefine(From(src, i))
    requires e == i + LineEnd(From(src, i), i > 0 && src[i - 1] == '\\')
    ensures Entered(src, i, s, Some(e))
  {
  }

  lemma EnteredInLine(src: string, i: nat, s: State, defineEnd: Option<nat>)
    requires i < |src| && Entered(src, i, s, defineEnd)
    ensures InLine(src, i, defineEnd)
  {
  }

  /** The loop body for a character of code: rewrite a statement tail, or copy the character. */
  method CodeStep(src: string, out: string, i: nat, recent: Recent, defineEnd: Option<nat>, ghost s: State)
    returns (out': string, i': nat, recent': Recent, ghost s': State)
    requires i < |src| && Rewritten(Of(src)) == Of(out).Then(Pending(src, i, s))
    requires Plain(s.mode, From(src, i)) && s.recent == recent && Entered(src, i, s, defineEnd)
    ensures i < i' && Loop(src, out', i', s', recent', defineEnd)
  {
    hide FindSite, Rewritten;
    EnteredInLine(src, i, s, defineEnd);
    var site := FindRewrite(src, i, recent, defineEnd);
    if site.Some? {
      var (piece, semi) := site.value;
      SiteStep(src, out, i, s, recent, defineEnd, piece, semi);
      return out + Str(Show(piece, End)), semi, recent, AtSemi(s, From(src, i));
    }
    CopiedOne(From(src, i), s);
    CopyStep(src, out, i, s, recent, defineEnd);
    out', i', s' := out + [src[i]], i + 1, After(s, From(src, i));
    recent' := if Space(src[i]) then recent else Push(recent, src[i]);
  }

  /** The loop body for a comment or a string: copy it whole. */
  method SkippedStep(src: string, out: string, i: nat, recent: Recent, defineEnd: Option<nat>, ghost s: State)
    returns (out': string, i': nat, recent': Recent, ghost s': State)
    requires i < |src| && Loop(src, out, i, s, recent, defineEnd)
    requires src[i] == '"' || CommentStart(From(src, i))
    ensures i < i' && Loop(src, out', i', s', recent', defineEnd)
  {
    hide Loop, StringEnd, Through;
    if src[i] == '"' {
      i' := SkipString(src, i);
      StringStep(src, out, i, s, recent, defineEnd);
      recent' := Push(recent, '"');
    } else {
      i' := SkipWsComments(src, i);
      CommentStep(src, out, i, s, recent, defineEnd);
      recent' := recent;
    }
    out', s' := out + src[i..i'], Through(From(src, i), s, i' - i);
  }

  /** The pass over a whole source text. */
  method RewriteAll(src: string) returns (out: string)
    ensures Of(out) == Rewritten(Of(src))
  {
    var n := |src|;
    var i := 0;
    out := "";
    var recent := Recent(' ', ' ', ' ');
    var defineEnd: Option<nat> := None;
    ghost var s := START;
    while i < n
      invariant Loop(src, out, i, s, recent, defineEnd)
      decreases n - i
    {
      ghost var t := From(src, i);
      LineLeft(src, out, i, s, recent, defineEnd);
      if defineEnd.Some? && i >= defineEnd.value {
        defineEnd := None;
      }
      if src[i] == '"' || (src[i] == '/' && i + 1 < n && (src[i + 1] == '/' || src[i + 1] == '*')) {
        out, i, recent, s := SkippedStep(src, out, i, recent, defineEnd, s);
        continue;
      }
      if IsDefine(From(src, i)) {
        var e := DefineLineEnd(src, i);
        defineEnd := Some(e);
        LineEntered(src, i, s, e);
      }
      assert Entered(src, i, s, defineEnd);
      out, i, recent, s := CodeStep(src, out, i, recent, defineEnd, s);
    }
    ThenEnd(Of(out));
  }

  lemma {:induction false} HasFrom(s: string, i: nat, c: char)
    requires i <= |s| && c !in s
    ensures !DelayLayout.Has(From(s, i), c)
    decreases |s| - i
  {
    if i < |s| { HasFrom(s, i + 1, c); }
  }

  /** The entry point: texts without `#` and `@` are returned at once. */
  method Rewrite(src: string) returns (out: string)
    ensures Of(out) == Rewritten(Of(src))
  {
    if '#' !in src && '@' !in src {
      HasFrom(src, 0, '#');
      HasFrom(src, 0, '@');
      DelayLayout.NothingToDo(Of(src), START);
      return src;
    }
    out := RewriteAll(src);
  }
}
