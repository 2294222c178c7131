/** The scanners of src/intra_delay.rs against an independent, character-by-character
    reading of where code, comments and strings are. */
module Lexing {
  import opened Results
  import opened Texts

  /** What the next character belongs to. `Open` is the `*` that opens a block comment,
      `Close` the `/` that ends it, `Esc` the character after a backslash in a string. */
  datatype Mode = Code | Line | Open | Block | Close | Str | Esc

  predicate Space(c: char) {
    c == ' ' || c == '\t' || c == '\n' || c == '\r' || c == '\U{0C}'
  }

  predicate Opens(c: char) {
    c == '(' || c == '[' || c == '{'
  }

  predicate Closes(c: char) {
    c == ')' || c == ']' || c == '}'
  }

  predicate CommentStart(t: Text) {
    t.Ch? && t.head == '/' && t.tail.Ch? && (t.tail.head == '/' || t.tail.head == '*')
  }

  /** How the first character of `t`, read in mode `m`, changes the mode. */
  function Next(m: Mode, t: Text): Mode {
    if t.End? then m else
    match m
    case Code => if CommentStart(t) then (if t.tail.head == '/' then Line else Open) else if t.head == '"' then Str else Code
    case Line => if t.head == '\n' then Code else Line
    case Open => Block
    case Block => if t.head == '*' && t.tail.Ch? && t.tail.head == '/' then Close else Block
    case Close => Code
    case Str => if t.head == '\\' then Esc else if t.head == '"' then Code else Str
    case Esc => Str
  }

  /** The first character of `t` is code: neither a comment nor a string starts or continues there. */
  predicate Plain(m: Mode, t: Text) {
    t.Ch? && m == Code && !CommentStart(t) && t.head != '"'
  }

  predicate InString(m: Mode) {
    m == Str || m == Esc
  }

  /** Bracket depth after the first character of `t`. */
  function Deeper(m: Mode, t: Text, depth: int): int {
    if Plain(m, t) && Opens(t.head) then depth + 1
    else if Plain(m, t) && Closes(t.head) then depth - 1
    else depth
  }

  function Plus(k: nat, r: Option<nat>): Option<nat> {
    match r
    case None => None
    case Some(n) => Some(k + n)
  }

  /** Length of the whitespace and comments that `t` starts with, read in mode `m`. */
  function TriviaEnd(t: Text, m: Mode): nat
  {
    if t.End? || (m == Code && !CommentStart(t) && !Space(t.head)) then 0
    else 1 + TriviaEnd(t.tail, Next(m, t))
  }

  /** Length of the rest of a string literal, its closing quote included. */
  function StringEnd(t: Text, m: Mode): nat
    requires InString(m)
  {
    if t.End? then 0
    else if Next(m, t) == Code then 1
    else 1 + StringEnd(t.tail, Next(m, t))
  }

  /** Offset of the statement's `;` when `depth` brackets are open. */
  function Find(t: Text, m: Mode, depth: nat): Option<nat> {
    if t.End? || (Plain(m, t) && Closes(t.head) && depth == 0) then None
    else if Plain(m, t) && t.head == ';' && depth == 0 then Some(0)
    else Plus(1, Find(t.tail, Next(m, t), Deeper(m, t, depth)))
  }

  /** Length of a bracketed group after its opener, `depth` brackets being open; strings are
      skipped, comments are not recognised. */
  function RawEnd(t: Text, m: Mode, depth: nat): (r: Option<nat>)
    requires m == Code || InString(m)
    ensures r.Some? && depth > 0 ==> r.value > 0
  {
    if depth == 0 then Some(0)
    else if t.End? then None
    else if InString(m) then Plus(1, RawEnd(t.tail, Next(m, t), depth))
    else if t.head == '"' then Plus(1, RawEnd(t.tail, Str, depth))
    else if Opens(t.head) then Plus(1, RawEnd(t.tail, Code, depth + 1))
    else if Closes(t.head) then Plus(1, RawEnd(t.tail, Code, depth - 1))
    else Plus(1, RawEnd(t.tail, Code, depth))
  }

  /** Length of a parenthesised group after its opener, counting parentheses only. */
  function ParenEnd(t: Text, depth: nat): (r: Option<nat>)
    ensures r.Some? && depth > 0 ==> r.value > 0
  {
    if depth == 0 then Some(0)
    else if t.End? then None
    else Plus(1, ParenEnd(t.tail, if t.head == '(' then depth + 1 else if t.head == ')' then depth - 1 else depth))
  }

  predicate WordChar(c: char) {
    'a' <= c <= 'z' || 'A' <= c <= 'Z' || '0' <= c <= '9' || c == '_' || c == '$' || c == '.'
  }

  function WordEnd(t: Text): nat
  {
    if t.End? || !WordChar(t.head) then 0 else 1 + WordEnd(t.tail)
  }

  predicate IsBlank(t: Text) {
    t.End? || (Space(t.head) && IsBlank(t.tail))
  }

  /** Offset of the first newline that no backslash escapes; `esc` tells whether the character
      before `t` is a backslash. */
  function LineEnd(t: Text, esc: bool): nat
  {
    if t.End? || (t.head == '\n' && !esc) then 0 else 1 + LineEnd(t.tail, t.head == '\\')
  }

  // --------------------------------------------- the scanners stay within the text

  lemma {:induction false} TriviaFits(t: Text, m: Mode)
    ensures TriviaEnd(t, m) <= t.Size()
  {
    if t.Ch? { TriviaFits(t.tail, Next(m, t)); }
  }

  lemma {:induction false} StringFits(t: Text, m: Mode)
    requires InString(m)
    ensures StringEnd(t, m) <= t.Size()
  {
    if t.Ch? && Next(m, t) != Code { StringFits(t.tail, Next(m, t)); }
  }

  lemma {:induction false} RawFits(t: Text, m: Mode, depth: nat)
    requires (m == Code || InString(m)) && RawEnd(t, m, depth).Some?
    ensures RawEnd(t, m, depth).value <= t.Size()
  {
    if depth > 0 {
      if InString(m) {
        RawFits(t.tail, Next(m, t), depth);
      } else if t.head == '"' {
        RawFits(t.tail, Str, depth);
      } else {
        RawFits(t.tail, Code, if Opens(t.head) then depth + 1 else if Closes(t.head) then depth - 1 else depth);
      }
    }
  }

  lemma {:induction false} WordFits(t: Text)
    ensures WordEnd(t) <= t.Size()
  {
    if t.Ch? { WordFits(t.tail); }
  }

  // ---------------------------------------------------------------- the scanners

  method SkipWsComments(b: string, start: nat) returns (i: nat)
    requires start <= |b|
    ensures i == start + TriviaEnd(From(b, start), Code) <= |b|
  {
    i := start;
    while true
      invariant start <= i <= |b|
      invariant start + TriviaEnd(From(b, start), Code) == i + TriviaEnd(From(b, i), Code)
      decreases |b| - i
    {
      while i < |b| && Space(b[i])
        invariant start <= i <= |b|
        invariant start + TriviaEnd(From(b, start), Code) == i + TriviaEnd(From(b, i), Code)
      {
        i := i + 1;
      }
      if i + 1 < |b| && b[i] == '/' && b[i + 1] == '/' {
        i := SkipLine(b, i);
      } else if i + 1 < |b| && b[i] == '/' && b[i + 1] == '*' {
        i := SkipBlock(b, i);
      } else {
        return;
      }
    }
  }

  /** To the end of a line comment, its newline left for the whitespace loop. */
  method SkipLine(b: string, start: nat) returns (i: nat)
    requires start + 1 < |b| && b[start] == '/' && b[start + 1] == '/'
    ensures start < i <= |b| && start + TriviaEnd(From(b, start), Code) == i + TriviaEnd(From(b, i), Code)
  {
    i := start;
    while i < |b| && b[i] != '\n'
      invariant start <= i <= |b|
      invariant start + TriviaEnd(From(b, start), Code) == i + TriviaEnd(From(b, i), if i == start then Code else Line)
    {
      i := i + 1;
    }
  }

  method SkipBlock(b: string, start: nat) returns (i: nat)
    requires start + 1 < |b| && b[start] == '/' && b[start + 1] == '*'
    ensures start < i <= |b| && start + TriviaEnd(From(b, start), Code) == i + TriviaEnd(From(b, i), Code)
  {
    i := start + 2;
    assert From(b, start).tail == From(b, start + 1) && From(b, start + 1).tail == From(b, i);
    while i + 1 < |b| && !(b[i] == '*' && b[i + 1] == '/')
      invariant start + 2 <= i <= |b|
      invariant start + TriviaEnd(From(b, start), Code) == i + TriviaEnd(From(b, i), Block)
    {
      i := i + 1;
    }
    BlockTail(b, i);
    i := if i + 2 < |b| then i + 2 else |b|;
  }

  lemma BlockTail(b: string, i: nat)
    requires i <= |b|
    requires i + 1 < |b| ==> b[i] == '*' && b[i + 1] == '/'
    ensures var j := if i + 2 < |b| then i + 2 else |b|;
            i + TriviaEnd(From(b, i), Block) == j + TriviaEnd(From(b, j), Code)
  {
    if i + 1 < |b| {
      assert From(b, i).tail == From(b, i + 1) && From(b, i + 1).tail == From(b, i + 2);
    } else if i < |b| {
      assert From(b, i).tail == End;
    }
  }

  /** `start` is at the opening quote. */
  method SkipString(b: string, start: nat) returns (i: nat)
    requires start < |b| && b[start] == '"'
    ensures i == start + 1 + StringEnd(From(b, start + 1), Str) <= |b|
  {
    i := start + 1;
    while i < |b|
      invariant start < i <= |b| + 1
      invariant i <= |b| ==> start + 1 + StringEnd(From(b, start + 1), Str) == i + StringEnd(From(b, i), Str)
      invariant i > |b| ==> start + 1 + StringEnd(From(b, start + 1), Str) == |b|
    {
      if b[i] == '\\' {
        i := i + 2;
      } else if b[i] == '"' {
        return i + 1;
      } else {
        i := i + 1;
      }
    }
    return |b|;
  }

  method FindStmtSemi(b: string, start: nat) returns (r: Option<nat>)
    requires start <= |b|
    ensures r == Plus(start, Find(From(b, start), Code, 0))
  {
    var i := start;
    var depth := 0;
    ghost var goal := Plus(start, Find(From(b, start), Code, 0));
    while i < |b|
      invariant start <= i <= |b| && depth >= 0
      invariant goal == Plus(i, Find(From(b, i), Code, depth))
    {
      if b[i] == '/' && i + 1 < |b| && (b[i + 1] == '/' || b[i + 1] == '*') {
        FindSkipsTrivia(b, i, depth);
        i := SkipWsComments(b, i);
      } else if b[i] == '"' {
        FindSkipsString(b, i, depth);
        i := SkipString(b, i);
      } else if Opens(b[i]) {
        depth := depth + 1;
        i := i + 1;
      } else if Closes(b[i]) {
        depth := depth - 1;
        if depth < 0 {
          return None;
        }
        i := i + 1;
      } else if b[i] == ';' && depth == 0 {
        return Some(i);
      } else {
        i := i + 1;
      }
    }
    return None;
  }

  lemma FindSkipsTrivia(b: string, i: nat, depth: nat)
    requires i <= |b|
    ensures var j := i + TriviaEnd(From(b, i), Code);
            j <= |b| && Plus(i, Find(From(b, i), Code, depth)) == Plus(j, Find(From(b, j), Code, depth))
  {
    SizeFrom(b, i);
    TriviaFits(From(b, i), Code);
    FindOverTrivia(From(b, i), Code, depth);
    DropFrom(b, i, TriviaEnd(From(b, i), Code));
  }

  lemma FindSkipsString(b: string, i: nat, depth: nat)
    requires i < |b| && b[i] == '"'
    ensures var j := i + 1 + StringEnd(From(b, i + 1), Str);
            j <= |b| && Plus(i, Find(From(b, i), Code, depth)) == Plus(j, Find(From(b, j), Code, depth))
  {
    SizeFrom(b, i + 1);
    StringFits(From(b, i + 1), Str);
    FindOneMore(From(b, i), Code, depth);
    FindOverString(From(b, i + 1), Str, depth);
    DropFrom(b, i + 1, StringEnd(From(b, i + 1), Str));
  }

  lemma {:induction false} FoundSemi(t: Text, m: Mode, depth: nat)
    requires Find(t, m, depth).Some?
    ensures var n := Find(t, m, depth).value;
            n < t.Size() && t.Drop(n).Ch? && t.Drop(n).head == ';'
  {
    if !(Plain(m, t) && t.head == ';' && depth == 0) {
      FoundSemi(t.tail, Next(m, t), Deeper(m, t, depth));
    }
  }

  /** A character that is not a bracket or semicolon of code changes nothing for `Find`. */
  lemma FindOneMore(t: Text, m: Mode, depth: nat)
    requires t.Ch? && (Plain(m, t) ==> !Opens(t.head) && !Closes(t.head) && t.head != ';')
    ensures Find(t, m, depth) == Plus(1, Find(t.tail, Next(m, t), depth))
  {
  }

  lemma {:induction false} FindOverTrivia(t: Text, m: Mode, depth: nat)
    requires !InString(m)
    ensures Find(t, m, depth) == Plus(TriviaEnd(t, m), Find(t.Drop(TriviaEnd(t, m)), Code, depth))
  {
    hide Find;
    if t.Ch? && (m != Code || CommentStart(t) || Space(t.head)) {
      FindOneMore(t, m, depth);
      FindOverTrivia(t.tail, Next(m, t), depth);
      var k := TriviaEnd(t.tail, Next(m, t));
      assert t.Drop(1 + k) == t.tail.Drop(k);
    } else if t.End? {
      NothingFound(m, depth);
      NothingFound(Code, depth);
    }
  }

  lemma NothingFound(m: Mode, depth: nat)
    ensures Find(End, m, depth) == None
  {
  }

  lemma {:induction false} FindOverString(t: Text, m: Mode, depth: nat)
    requires InString(m)
    ensures Find(t, m, depth) == Plus(StringEnd(t, m), Find(t.Drop(StringEnd(t, m)), Code, depth))
  {
    if t.Ch? && Next(m, t) != Code {
      FindOverString(t.tail, Next(m, t), depth);
    }
  }

  method DefineLineEnd(b: string, start: nat) returns (i: nat)
    requires start <= |b|
    ensures i == start + LineEnd(From(b, start), start > 0 && b[start - 1] == '\\') <= |b|
  {
    i := start;
    while i < |b|
      invariant start <= i <= |b|
      invariant start + LineEnd(From(b, start), start > 0 && b[start - 1] == '\\')
             == i + LineEnd(From(b, i), i > 0 && b[i - 1] == '\\')
    {
      if b[i] == '\n' && (i == 0 || b[i - 1] != '\\') {
        return;
      }
      i := i + 1;
    }
  }

  // --------------------------------------- what the statement scanner finds

  /** The mode in which character `k` of `t` is read when `t` starts in code. */
  ghost function ModeAt(t: Text, k: nat): Mode {
    if k == 0 then Code else Next(ModeAt(t, k - 1), t.Drop(k - 1))
  }

  /** How many more brackets of code are opened than closed before character `k`. */
  ghost function DepthAt(t: Text, k: nat): int {
    if k == 0 then 0 else Deeper(ModeAt(t, k - 1), t.Drop(k - 1), DepthAt(t, k - 1))
  }

  /** Character `k` is a semicolon of code outside every bracket. */
  ghost predicate EndsStatement(t: Text, k: nat) {
    Plain(ModeAt(t, k), t.Drop(k)) && t.Drop(k).head == ';' && DepthAt(t, k) == 0
  }

  /** Character `k` closes a bracket that `t` does not open. */
  ghost predicate ClosesOuter(t: Text, k: nat) {
    Plain(ModeAt(t, k), t.Drop(k)) && Closes(t.Drop(k).head) && DepthAt(t, k) == 0
  }

  /** The first place where the statement can end, or the bracket around it does. */
  ghost predicate Stops(t: Text, k: nat) {
    EndsStatement(t, k) || ClosesOuter(t, k)
  }

  lemma DropTail(t: Text, k: nat)
    ensures t.Drop(k).Ch? ==> t.Drop(k).tail == t.Drop(k + 1)
    ensures t.Drop(k).End? ==> t.Drop(k + 1).End?
  {
    DropMore(t, k, 1);
  }

  lemma {:induction false} FindFrom(t: Text, k: nat, n: nat)
    requires DepthAt(t, k) >= 0
    ensures Find(t.Drop(k), ModeAt(t, k), DepthAt(t, k)) == Some(n) <==>
              EndsStatement(t, k + n) && forall j :: k <= j < k + n ==> !Stops(t, j)
    decreases t.Drop(k).Size(), n
  {
    DropTail(t, k);
    if t.Drop(k).End? {
      DropMore(t, k, n);
      assert t.Drop(k + n).End?;
    } else if Stops(t, k) {
      assert n > 0 ==> k <= k < k + n;
    } else if n > 0 {
      FindFrom(t, k + 1, n - 1);
    }
  }

  /** `Find` returns exactly the first semicolon of code at depth zero, provided no bracket
      around the statement closes before it; otherwise nothing. */
  lemma FindExact(t: Text, n: nat)
    ensures Find(t, Code, 0) == Some(n) <==> EndsStatement(t, n) && forall j :: 0 <= j < n ==> !Stops(t, j)
  {
    FindFrom(t, 0, n);
  }

  // --------------------------------------- where groups end

  /** How character `k` of a raw group is read: strings are, comments are not. */
  ghost function RawModeAt(t: Text, k: nat): Mode {
    if k == 0 then Code else
      var m, u := RawModeAt(t, k - 1), t.Drop(k - 1);
      if InString(m) then Next(m, u) else if u.Ch? && u.head == '"' then Str else Code
  }

  /** The brackets open before character `k`, one of them in front of `t`. */
  ghost function RawDepthAt(t: Text, k: nat): int {
    if k == 0 then 1 else
      var m, u := RawModeAt(t, k - 1), t.Drop(k - 1);
      RawDepthAt(t, k - 1)
      + if u.End? || InString(m) || u.head == '"' then 0 else if u.head in "([{" then 1 else if u.head in ")]}" then -1 else 0
  }

  lemma {:induction false} RawFrom(t: Text, k: nat, n: nat)
    requires RawDepthAt(t, k) >= 0 && (RawModeAt(t, k) == Code || InString(RawModeAt(t, k)))
    requires k <= t.Size() && (RawDepthAt(t, k) == 0 ==> RawModeAt(t, k) == Code)
    ensures RawEnd(t.Drop(k), RawModeAt(t, k), RawDepthAt(t, k)) == Some(n) <==>
              k + n <= t.Size() && RawDepthAt(t, k + n) == 0 && forall j :: k <= j < k + n ==> RawDepthAt(t, j) > 0
    decreases t.Size() - k
  {
    DropSize(t, k);
    RawStops(t.Drop(k), RawModeAt(t, k), RawDepthAt(t, k));
    hide RawEnd, RawModeAt, RawDepthAt;
    if RawDepthAt(t, k) == 0 {
      assert n > 0 ==> k <= k < k + n;
    } else if t.Drop(k).Ch? {
      RawNext(t, k);
      if n > 0 { RawFrom(t, k + 1, n - 1); }
    }
  }

  lemma RawStops(u: Text, m: Mode, depth: nat)
    requires m == Code || InString(m)
    ensures RawEnd(u, m, 0) == Some(0)
    ensures u.End? && depth > 0 ==> RawEnd(u, m, depth) == None
  {
  }

  lemma RawNext(t: Text, k: nat)
    requires k < t.Size() && RawDepthAt(t, k) > 0 && (RawModeAt(t, k) == Code || InString(RawModeAt(t, k)))
    ensures var m, depth := RawModeAt(t, k + 1), RawDepthAt(t, k + 1);
      && RawEnd(t.Drop(k), RawModeAt(t, k), RawDepthAt(t, k)) == Plus(1, RawEnd(t.Drop(k + 1), m, depth))
      && depth >= 0 && (m == Code || InString(m)) && (depth == 0 ==> m == Code)
  {
    DropTail(t, k);
    DropSize(t, k);
  }

  /** A bracketed group ends exactly behind the bracket that brings the count of open ones to 0 for
      the first time, brackets of all three kinds counting alike and those in strings not at all. */
  lemma RawExact(t: Text, n: nat)
    ensures RawEnd(t, Code, 1) == Some(n) <==>
              n <= t.Size() && RawDepthAt(t, n) == 0 && forall j :: 0 <= j < n ==> RawDepthAt(t, j) > 0
  {
    RawFrom(t, 0, n);
  }

  ghost function ParenDepthAt(t: Text, k: nat): int {
    if k == 0 then 1 else
      var u := t.Drop(k - 1);
      ParenDepthAt(t, k - 1) + if u.End? then 0 else if u.head == '(' then 1 else if u.head == ')' then -1 else 0
  }

  lemma {:induction false} ParenFrom(t: Text, k: nat, n: nat)
    requires ParenDepthAt(t, k) >= 0 && k <= t.Size()
    ensures ParenEnd(t.Drop(k), ParenDepthAt(t, k)) == Some(n) <==>
              k + n <= t.Size() && ParenDepthAt(t, k + n) == 0 && forall j :: k <= j < k + n ==> ParenDepthAt(t, j) > 0
    decreases t.Size() - k
  {
    DropTail(t, k);
    DropSize(t, k);
    if ParenDepthAt(t, k) == 0 {
      assert n > 0 ==> k <= k < k + n;
    } else if t.Drop(k).Ch? {
      if n > 0 { ParenFrom(t, k + 1, n - 1); }
    }
  }

  /** A repeat count ends where its parentheses, and nothing else, match. */
  lemma ParenExact(t: Text, n: nat)
    ensures ParenEnd(t, 1) == Some(n) <==>
              n <= t.Size() && ParenDepthAt(t, n) == 0 && forall j :: 0 <= j < n ==> ParenDepthAt(t, j) > 0
  {
    ParenFrom(t, 0, n);
  }
}
