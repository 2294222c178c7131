/** The pre-parse rewriting of intra-assignment delays, cycle delays and event controls
    (src/intra_delay.rs; sections 9.4.5 and 14.16 of IEEE 1800-2017). */
module IntraDelay {
  import opened Results
  import opened Texts
  import opened Lexing

  const DELAY_MARKER := "$__xz_intra_delay"
  const EVENT_MARKER := "$__xz_intra_ev"
  const CYCLE_MARKER := "$__xz_intra_cycle"

  // ------------------------------------------------- text helpers of the language

  /** Unicode White_Space, which `str::trim` removes. */
  predicate TrimSpace(c: char) {
    '\U{09}' <= c <= '\U{0D}' || c == ' ' || c == '\U{85}' || c == '\U{A0}' || c == '\U{1680}'
    || '\U{2000}' <= c <= '\U{200A}' || c == '\U{2028}' || c == '\U{2029}' || c == '\U{202F}'
    || c == '\U{205F}' || c == '\U{3000}'
  }

  predicate AllTrimSpace(t: Text) {
    t.End? || (TrimSpace(t.head) && AllTrimSpace(t.tail))
  }

  function TrimStart(t: Text): Text {
    if t.Ch? && TrimSpace(t.head) then TrimStart(t.tail) else t
  }

  function TrimEnd(t: Text): Text {
    if AllTrimSpace(t) then End else Ch(t.head, TrimEnd(t.tail))
  }

  function Trim(t: Text): Text {
    TrimEnd(TrimStart(t))
  }

  predicate Starts(t: Text, p: Text) {
    p.End? || (t.Ch? && t.head == p.head && Starts(t.tail, p.tail))
  }

  predicate Contains(t: Text, p: Text) {
    Starts(t, p) || (t.Ch? && Contains(t.tail, p))
  }

  predicate IsRepeat(t: Text) {
    Starts(t, Of("repeat"))
  }

  predicate IsDefine(t: Text) {
    Starts(t, Of("`define"))
  }

  // ------------------------------------------------------------ timing controls

  /** The lengths of a timing control and of the right-hand side between it and the `;`. */
  datatype Extent = Extent(ctl: nat, rhs: nat)

  /** Length of the right-hand side that `t` starts with; an empty one is refused. */
  function RhsEnd(t: Text): Option<nat> {
    match Find(t, Code, 0)
    case None => None
    case Some(n) => if IsBlank(t.Take(n)) then None else Some(n)
  }

  /** Length of a parenthesised group or of one literal or identifier. */
  function OperandEnd(u: Text): Option<nat> {
    if u.Ch? && u.head == '(' then Plus(1, RawEnd(u.tail, Code, 1))
    else if WordEnd(u) == 0 then None
    else Some(WordEnd(u))
  }

  /** End of a delay control. */
  function DelayEnd(t: Text): Option<nat> {
    Plus(TriviaEnd(t, Code), OperandEnd(t.Drop(TriviaEnd(t, Code))))
  }

  /** `t` is the text after `#` or `##`. */
  function DelayAt(t: Text): Option<Extent> {
    match DelayEnd(t)
    case None => None
    case Some(ctl) =>
      match RhsEnd(t.Drop(ctl))
      case None => None
      case Some(rhs) => Some(Extent(ctl, rhs))
  }

  /** An event control: the edge code, the signal text and where the control ends. */
  datatype EventControl = EventControl(edge: char, sig: Text, ctl: nat)

  predicate SigChars(t: Text) {
    t.End? || ((WordChar(t.head) || t.head == '[' || t.head == ']') && SigChars(t.tail))
  }

  /** Edge and signal of the text between the parentheses; multi-term lists are refused. */
  function EdgeAndSig(ev: Text): Option<(char, Text)> {
    if Contains(ev, Of(" or ")) || Contains(ev, Of(",")) then None
    else
      var (edge, sig) :=
        if Starts(ev, Of("posedge ")) then ('1', Trim(ev.Drop(8)))
        else if Starts(ev, Of("negedge ")) then ('2', Trim(ev.Drop(8)))
        else ('0', ev);
      if sig.End? || !SigChars(sig) then None else Some((edge, sig))
  }

  predicate NameStart(c: char) {
    'a' <= c <= 'z' || 'A' <= c <= 'Z' || c == '_'
  }

  /** An event identifier or a parenthesised event expression. */
  function EventOperand(u: Text): Option<EventControl> {
    if u.End? then None
    else if u.head != '(' then
      if NameStart(u.head) then Some(EventControl('0', u.Take(WordEnd(u)), WordEnd(u))) else None
    else
      match RawEnd(u.tail, Code, 1)
      case None => None
      case Some(k) =>
        match EdgeAndSig(Trim(u.tail.Take(k - 1)))
        case None => None
        case Some((edge, sig)) => Some(EventControl(edge, sig, 1 + k))
  }

  function Later(k: nat, r: Option<EventControl>): Option<EventControl> {
    match r
    case None => None
    case Some(e) => Some(EventControl(e.edge, e.sig, k + e.ctl))
  }

  /** `t` is the text after `@`. */
  function EventControlAt(t: Text): Option<EventControl> {
    Later(TriviaEnd(t, Code), EventOperand(t.Drop(TriviaEnd(t, Code))))
  }

  /** Offset of the `@` that follows whitespace and comments. */
  function AtOffset(w: Text): Option<nat> {
    var x := w.Drop(TriviaEnd(w, Code));
    if x.Ch? && x.head == '@' then Some(TriviaEnd(w, Code)) else None
  }

  /** Offset of the `@` after a parenthesised count. */
  function AfterCount(v: Text): Option<nat> {
    if v.Ch? && v.head == '(' && ParenEnd(v.tail, 1).Some? then
      Plus(1 + ParenEnd(v.tail, 1).value, AtOffset(v.tail.Drop(ParenEnd(v.tail, 1).value)))
    else None
  }

  /** Offset of the `@` after a repeat count; `u` is the text after `repeat`. */
  function AfterRepeat(u: Text): Option<nat> {
    Plus(TriviaEnd(u, Code), AfterCount(u.Drop(TriviaEnd(u, Code))))
  }

  /** The trimmed count of the repeat control whose text after `repeat` is `u`. */
  function CountText(u: Text): Text {
    var v := u.Drop(TriviaEnd(u, Code));
    if v.Ch? && ParenEnd(v.tail, 1).Some? then Trim(v.tail.Take(ParenEnd(v.tail, 1).value - 1)) else End
  }

  /** `t` starts with `repeat`: the count and the offset of the `@` after it. */
  function RepeatAt(t: Text): Option<(Text, nat)> {
    match AfterRepeat(t.Drop(6))
    case None => None
    case Some(n) => Some((CountText(t.Drop(6)), 6 + n))
  }

  // ------------------------------------------------------------- rewriting sites

  /** The last three significant characters, newest first. */
  datatype Recent = Recent(p1: char, p2: char, p3: char)

  function Push(r: Recent, c: char): Recent {
    Recent(c, r.p1, r.p2)
  }

  /** The last significant characters are a plain `=` or a nonblocking `<=`. */
  predicate Gate(r: Recent) {
    r.p1 == '=' && ((r.p2 !in ['=', '!', '<', '>', '+', '-', '*', '/', '%', '&', '|', '^', '~'])
                    || (r.p2 == '<' && r.p3 != '<'))
  }

  /** What one step of the pass handles: a copied character or a rewritten statement tail. */
  datatype Piece =
    | Copy(c: char)
    | Delay(ctl: Text, rhs: Text)
    | Cycle(ctl: Text, rhs: Text)
    | Event(control: Text, count: Text, edge: char, sig: Text, rhs: Text)

  datatype Pieces = Nil | Cons(piece: Piece, rest: Pieces)

  /** The source text of a piece, followed by `more`. */
  function Source(p: Piece, more: Text): Text {
    match p
    case Copy(c) => Ch(c, more)
    case Delay(ctl, rhs) => Ch('#', ctl.Then(rhs.Then(more)))
    case Cycle(ctl, rhs) => Ch('#', Ch('#', ctl.Then(rhs.Then(more))))
    case Event(control, _, _, _, rhs) => control.Then(rhs.Then(more))
  }

  /** The arguments of the marker call. */
  function Args(p: Piece, more: Text): Text
    requires !p.Copy?
  {
    match p
    case Delay(ctl, rhs) => ctl.Then(Ch(',', rhs.Then(more)))
    case Cycle(ctl, rhs) => ctl.Then(Ch(',', rhs.Then(more)))
    case Event(_, count, edge, sig, rhs) =>
      count.Then(Ch(',', Ch(edge, Ch(',', sig.Then(Ch(',', rhs.Then(more)))))))
  }

  function Marker(p: Piece): string
    requires !p.Copy?
  {
    match p
    case Delay(_, _) => DELAY_MARKER
    case Cycle(_, _) => CYCLE_MARKER
    case Event(_, _, _, _, _) => EVENT_MARKER
  }

  /** What the pass writes for a piece, followed by `more`. */
  function Show(p: Piece, more: Text): Text {
    if p.Copy? then Ch(p.c, more) else Of(Marker(p)).Then(Ch('(', Args(p, Ch(')', more))))
  }

  function Original(ps: Pieces): Text {
    if ps.Nil? then End else Source(ps.piece, Original(ps.rest))
  }

  function Render(ps: Pieces): Text {
    if ps.Nil? then End else Show(ps.piece, Render(ps.rest))
  }

  datatype Site = Site(piece: Piece, semi: nat)

  /** An unescaped newline is among the first `n` characters. */
  predicate Broken(t: Text, n: nat, esc: bool) {
    n > 0 && t.Ch? && ((t.head == '\n' && !esc) || Broken(t.tail, n - 1, t.head == '\\'))
  }

  /** `u` is the text after the `#` or `##` that `t` starts with, `op` the length of that operator. */
  function DelaySite(t: Text, u: Text, op: nat, inDef: bool): Option<Site> {
    match DelayAt(u)
    case None => None
    case Some(e) =>
      var semi := op + e.ctl + e.rhs;
      if inDef && Broken(t, semi, false) then None
      else
        var ctl, rhs := u.Take(e.ctl), u.Drop(e.ctl).Take(e.rhs);
        Some(Site(if op == 1 then Delay(ctl, rhs) else Cycle(ctl, rhs), semi))
  }

  /** The site of event control `e`, whose text starts at offset `m` of `t`. */
  function EventRest(t: Text, m: nat, count: Text, e: EventControl, inDef: bool): Option<Site> {
    var u := t.Drop(m).Drop(e.ctl);
    match RhsEnd(u)
    case None => None
    case Some(rhs) =>
      var semi := m + e.ctl + rhs;
      if inDef && Broken(t, semi, false) then None
      else Some(Site(Event(t.Take(m + e.ctl), count, e.edge, e.sig, u.Take(rhs)), semi))
  }

  /** `at` is the offset of the `@` in `t`. */
  function EventSite(t: Text, at: nat, count: Text, inDef: bool): Option<Site> {
    match EventControlAt(t.Drop(at + 1))
    case None => None
    case Some(e) => EventRest(t, at + 1, count, e, inDef)
  }

  /** The repeat count and the offset of the `@` of an event control at the start of `t`. */
  function EventStart(t: Text): Option<(Text, nat)> {
    if t.Ch? && t.head == '@' then Some((Of("1"), 0))
    else if IsRepeat(t) then RepeatAt(t)
    else None
  }

  /** The length of the `#` or `##` at the start of `t`. */
  function HashLength(t: Text): nat {
    if t.End? || t.head != '#' then 0
    else if t.tail.Ch? && t.tail.head == '#' then 2
    else 1
  }

  /** The statement tail that is rewritten at the start of `t`, if any. */
  function FindSite(t: Text, r: Recent, inDef: bool): Option<Site> {
    if !Gate(r) then None
    else
      match EventStart(t)
      case Some((count, at)) => EventSite(t, at, count, inDef)
      case None =>
        if HashLength(t) == 0 then None
        else DelaySite(t, if HashLength(t) == 2 then t.tail.tail else t.tail, HashLength(t), inDef)
  }

  // ------------------------------------------------------------------- the pass

  /** Where the pass is: the lexical mode, the significant characters behind it, whether it is
      inside a `define line, and whether the character behind it is a backslash. */
  datatype State = State(mode: Mode, recent: Recent, inDef: bool, esc: bool)

  const START := State(Code, Recent(' ', ' ', ' '), false, false)

  /** Still inside, or just entering, a `define line. */
  predicate DefNow(s: State, t: Text) {
    t.Ch? && ((s.inDef && !(t.head == '\n' && !s.esc)) || (Plain(s.mode, t) && IsDefine(t)))
  }

  function SiteAt(t: Text, s: State): Option<Site> {
    if Plain(s.mode, t) then FindSite(t, s.recent, DefNow(s, t)) else None
  }

  /** The state after copying the first character of `t`. */
  function After(s: State, t: Text): State {
    if t.End? then s
    else
      var next := Next(s.mode, t);
      var recent :=
        if Plain(s.mode, t) && !Space(t.head) then Push(s.recent, t.head)
        else if s.mode == Str && next == Code then Push(s.recent, '"')
        else s.recent;
      State(next, recent, DefNow(s, t), t.head == '\\')
  }

  /** The state at the `;` of a rewritten statement. */
  function AtSemi(s: State, t: Text): State {
    State(Code, s.recent, DefNow(s, t), false)
  }

  lemma SiteAdvances(t: Text, r: Recent, inDef: bool)
    requires FindSite(t, r, inDef).Some?
    ensures FindSite(t, r, inDef).value.semi > 0
  {
  }

  lemma DropShrinks(t: Text, n: nat)
    requires t.Ch? && n > 0
    ensures t.Drop(n).Size() < t.Size()
  {
    DropSize(t, n);
  }

  function Scan(t: Text, s: State): Pieces
    decreases t.Size()
  {
    if t.End? then Nil
    else
      match SiteAt(t, s)
      case Some(site) =>
        SiteAdvances(t, s.recent, DefNow(s, t));
        DropShrinks(t, site.semi);
        Cons(site.piece, Scan(t.Drop(site.semi), AtSemi(s, t)))
      case None => Cons(Copy(t.head), Scan(t.tail, After(s, t)))
  }

  function Rewritten(t: Text): Text {
    Render(Scan(t, START))
  }

  // ------------------------------------------------------- stretches that are copied

  /** No rewriting starts in the first `n` characters. */
  predicate Copied(t: Text, s: State, n: nat) {
    n == 0 || (t.Ch? && SiteAt(t, s).None? && Copied(t.tail, After(s, t), n - 1))
  }

  /** The state after copying `n` characters. */
  function Through(t: Text, s: State, n: nat): State {
    if n == 0 || t.End? then s else Through(t.tail, After(s, t), n - 1)
  }

  lemma {:induction false} CopiedScan(t: Text, s: State, n: nat)
    requires Copied(t, s, n)
    ensures Render(Scan(t, s)) == t.Take(n).Then(Render(Scan(t.Drop(n), Through(t, s, n))))
  {
    if n > 0 { CopiedScan(t.tail, After(s, t), n - 1); }
  }

  lemma {:induction false} CopiedMore(t: Text, s: State, m: nat, n: nat)
    requires Copied(t, s, m) && Copied(t.Drop(m), Through(t, s, m), n)
    ensures Copied(t, s, m + n) && Through(t, s, m + n) == Through(t.Drop(m), Through(t, s, m), n)
  {
    if m > 0 { CopiedMore(t.tail, After(s, t), m - 1, n); }
  }

  lemma {:induction false} LineEndBroken(t: Text, n: nat, esc: bool)
    requires n <= t.Size()
    ensures Broken(t, n, esc) <==> LineEnd(t, esc) < n
  {
    if n > 0 { LineEndBroken(t.tail, n - 1, t.head == '\\'); }
  }

  /** Past a stretch without unescaped newline, the line ends where it ended; only a leading
      newline depends on what came before. */
  lemma {:induction false} LineEndFrom(t: Text, n: nat, esc: bool)
    requires n <= t.Size() && n <= LineEnd(t, esc) && t.Drop(n).Ch? && t.Drop(n).head != '\n'
    ensures LineEnd(t, esc) == n + LineEnd(t.Drop(n), false)
  {
    if n > 0 { LineEndFrom(t.tail, n - 1, t.head == '\\'); }
  }

  /** The `define line ends where it ended, however far the pass has copied into it. */
  lemma {:induction false} LineEndThrough(t: Text, s: State, n: nat)
    requires n <= t.Size() && !Broken(t, n, s.esc)
    ensures LineEnd(t, s.esc) == n + LineEnd(t.Drop(n), Through(t, s, n).esc)
  {
    if n > 0 { LineEndThrough(t.tail, After(s, t), n - 1); }
  }

  lemma {:induction false} TriviaCopied(t: Text, s: State)
    requires !InString(s.mode)
    ensures var n := TriviaEnd(t, s.mode);
            var z := Through(t, s, n);
            && Copied(t, s, n) && z.recent == s.recent
            && (t.Drop(n).End? || z.mode == Code)
            && (z.inDef <==> s.inDef && !Broken(t, n, s.esc))
  {
    if t.Ch? && (s.mode != Code || CommentStart(t) || Space(t.head)) {
      TriviaCopied(t.tail, After(s, t));
    }
  }

  lemma {:induction false} StringCopied(t: Text, s: State)
    requires InString(s.mode)
    ensures var n := StringEnd(t, s.mode);
            var z := Through(t, s, n);
            && Copied(t, s, n)
            && (t.Drop(n).End? || (z.mode == Code && z.recent == Push(s.recent, '"')))
            && (z.inDef <==> s.inDef && !Broken(t, n, s.esc))
  {
    if t.Ch? && Next(s.mode, t) != Code {
      StringCopied(t.tail, After(s, t));
    }
  }

  // -------------------------------------------------------------- pieces and text

  /** Cutting a text at `a` and `a + b` loses nothing. */
  lemma Cut(t: Text, a: nat, b: nat)
    ensures t.Take(a).Then(t.Drop(a).Take(b).Then(t.Drop(a + b))) == t
  {
    Split(t, a);
    Split(t.Drop(a), b);
    DropMore(t, a, b);
  }

  lemma RhsFits(t: Text, a: nat)
    requires RhsEnd(t.Drop(a)).Some?
    ensures var n := a + RhsEnd(t.Drop(a)).value;
            n < t.Size() && t.Drop(n).Ch? && t.Drop(n).head == ';'
  {
    var n := RhsEnd(t.Drop(a)).value;
    FoundSemi(t.Drop(a), Code, 0);
    DropMore(t, a, n);
    DropSize(t, a);
  }

  /** The offset of a `;` behind a prefix. */
  lemma Behind(t: Text, a: nat, n: nat)
    requires n < t.Drop(a).Size() && t.Drop(a).Drop(n).Ch? && t.Drop(a).Drop(n).head == ';'
    ensures a + n < t.Size() && t.Drop(a + n).Ch? && t.Drop(a + n).head == ';'
  {
    DropMore(t, a, n);
    DropSize(t, a);
  }

  lemma DelaySiteText(u: Text, e: Extent)
    requires DelayAt(u) == Some(e)
    ensures var semi := e.ctl + e.rhs;
            && semi < u.Size() && u.Drop(semi).Ch? && u.Drop(semi).head == ';'
            && u.Take(e.ctl).Then(u.Drop(e.ctl).Take(e.rhs).Then(u.Drop(semi))) == u
  {
    RhsFits(u, e.ctl);
    Cut(u, e.ctl, e.rhs);
  }

  lemma EventSiteText(t: Text, at: nat, count: Text, inDef: bool)
    requires EventSite(t, at, count, inDef).Some?
    ensures FitsIn(EventSite(t, at, count, inDef).value, t)
  {
    var u := t.Drop(at + 1);
    var e := EventControlAt(u).value;
    var n := RhsEnd(u.Drop(e.ctl)).value;
    RhsFits(u, e.ctl);
    Behind(t, at + 1, e.ctl + n);
    DropMore(t, at + 1, e.ctl);
    Cut(t, at + 1 + e.ctl, n);
  }

  lemma HashSiteText(t: Text, inDef: bool)
    requires t.Ch? && t.head == '#' && DelaySite(t, t.tail, 1, inDef).Some?
    ensures FitsIn(DelaySite(t, t.tail, 1, inDef).value, t)
  {
    DelaySiteText(t.tail, DelayAt(t.tail).value);
  }

  lemma DoubleHashSiteText(t: Text, inDef: bool)
    requires t.Ch? && t.head == '#' && t.tail.Ch? && t.tail.head == '#'
    requires DelaySite(t, t.tail.tail, 2, inDef).Some?
    ensures FitsIn(DelaySite(t, t.tail.tail, 2, inDef).value, t)
  {
    var e := DelayAt(t.tail.tail).value;
    DelaySiteText(t.tail.tail, e);
    assert t.Drop(2 + e.ctl + e.rhs) == t.tail.Drop(1 + e.ctl + e.rhs);
  }

  /** The site's piece is the source text up to a `;`, which stays where it is. */
  predicate FitsIn(site: Site, t: Text) {
    && site.semi < t.Size() && t.Drop(site.semi).Ch? && t.Drop(site.semi).head == ';'
    && Source(site.piece, t.Drop(site.semi)) == t
  }

  lemma SiteText(t: Text, s: State)
    requires SiteAt(t, s).Some?
    ensures FitsIn(SiteAt(t, s).value, t)
  {
    var inDef := DefNow(s, t);
    match EventStart(t) {
      case Some((count, at)) =>
        EventSiteText(t, at, count, inDef);
      case None =>
        if HashLength(t) == 2 {
          DoubleHashSiteText(t, inDef);
        } else {
          HashSiteText(t, inDef);
        }
    }
  }

  /** The pieces, in order, are exactly the source text: nothing is lost, repeated or moved. */
  lemma {:induction false} PiecesAreSource(t: Text, s: State)
    ensures Original(Scan(t, s)) == t
    decreases t.Size()
  {
    if t.Ch? {
      match SiteAt(t, s)
      case Some(site) =>
        SiteAdvances(t, s.recent, DefNow(s, t));
        DropShrinks(t, site.semi);
        SiteText(t, s);
        PiecesAreSource(t.Drop(site.semi), AtSemi(s, t));
      case None =>
        PiecesAreSource(t.tail, After(s, t));
    }
  }

  lemma SourceThen(p: Piece, a: Text, b: Text)
    ensures Source(p, a).Then(b) == Source(p, a.Then(b))
  {
    match p {
      case Copy(_) =>
      case Delay(ctl, rhs) =>
        ThenAssoc(ctl, rhs.Then(a), b);
        ThenAssoc(rhs, a, b);
      case Cycle(ctl, rhs) =>
        ThenAssoc(ctl, rhs.Then(a), b);
        ThenAssoc(rhs, a, b);
      case Event(control, _, _, _, rhs) =>
        ThenAssoc(control, rhs.Then(a), b);
        ThenAssoc(rhs, a, b);
    }
  }

  lemma SiteLength(t: Text, s: State)
    requires SiteAt(t, s).Some?
    ensures var site := SiteAt(t, s).value;
            var x := Source(site.piece, End);
            !site.piece.Copy? && x.Size() == site.semi && t == x.Then(t.Drop(site.semi))
  {
    var site := SiteAt(t, s).value;
    var x, rest := Source(site.piece, End), t.Drop(site.semi);
    SiteText(t, s);
    SourceThen(site.piece, End, rest);
    ThenSplits(x, rest);
    DropSize(t, site.semi);
  }

  lemma ShowThen(p: Piece, more: Text)
    ensures Show(p, End).Then(more) == Show(p, more)
  {
    if !p.Copy? {
      var args := Args(p, Ch(')', End));
      ThenAssoc(Of(Marker(p)), Ch('(', args), more);
      ArgsThen(p, Ch(')', End), more);
    }
  }

  lemma ArgsThen(p: Piece, a: Text, more: Text)
    requires !p.Copy?
    ensures Args(p, a).Then(more) == Args(p, a.Then(more))
  {
    match p {
      case Event(_, count, edge, sig, rhs) =>
        ThenAssoc(rhs, a, more);
        ThenAssoc(sig, Ch(',', rhs.Then(a)), more);
        var tail := Ch(',', sig.Then(Ch(',', rhs.Then(a))));
        assert tail.Then(more) == Ch(',', sig.Then(Ch(',', rhs.Then(a.Then(more)))));
        assert Ch(edge, tail).Then(more) == Ch(edge, tail.Then(more));
        ThenAssoc(count, Ch(',', Ch(edge, tail)), more);
      case Delay(ctl, rhs) =>
        ThenAssoc(rhs, a, more);
        ThenAssoc(ctl, Ch(',', rhs.Then(a)), more);
      case Cycle(ctl, rhs) =>
        ThenAssoc(rhs, a, more);
        ThenAssoc(ctl, Ch(',', rhs.Then(a)), more);
    }
  }

  /** A site accepted inside a `define line does not leave it. */
  lemma SiteUnbroken(t: Text, r: Recent)
    requires FindSite(t, r, true).Some?
    ensures !Broken(t, FindSite(t, r, true).value.semi, false)
  {
  }
}
