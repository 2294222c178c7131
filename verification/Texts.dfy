/** Source text as a list of characters, for specifications that read it front to back. */
module Texts {
  datatype Text = End | Ch(head: char, tail: Text) {
    function Size(): nat {
      if End? then 0 else 1 + tail.Size()
    }

    function Then(more: Text): Text {
      if End? then more else Ch(head, tail.Then(more))
    }

    /** The first `n` characters, or all of them when there are fewer. */
    function Take(n: nat): Text {
      if n == 0 || End? then End else Ch(head, tail.Take(n - 1))
    }

    function Drop(n: nat): Text {
      if n == 0 || End? then this else tail.Drop(n - 1)
    }
  }

  /** The text of `s` from index `i` on. */
  function From(s: string, i: nat): Text
    requires i <= |s|
    decreases |s| - i
  {
    if i == |s| then End else Ch(s[i], From(s, i + 1))
  }

  function Of(s: string): Text {
    From(s, 0)
  }

  /** The text of `s[i..j]`. */
  function Slice(s: string, i: nat, j: nat): Text
    requires i <= j <= |s|
    decreases j - i
  {
    if i == j then End else Ch(s[i], Slice(s, i + 1, j))
  }

  lemma {:induction false} SizeFrom(s: string, i: nat)
    requires i <= |s|
    ensures From(s, i).Size() == |s| - i
    decreases |s| - i
  {
    if i < |s| { SizeFrom(s, i + 1); }
  }

  lemma {:induction false} DropFrom(s: string, i: nat, n: nat)
    requires i + n <= |s|
    ensures From(s, i).Drop(n) == From(s, i + n)
    decreases n
  {
    if n > 0 { DropFrom(s, i + 1, n - 1); }
  }

  lemma {:induction false} TakeFrom(s: string, i: nat, n: nat)
    requires i + n <= |s|
    ensures From(s, i).Take(n) == Slice(s, i, i + n)
    decreases n
  {
    if n > 0 { TakeFrom(s, i + 1, n - 1); }
  }

  /** Appending a slice of `src` to `out` appends its text. */
  lemma {:induction false} AppendSlice(out: string, src: string, i: nat, j: nat)
    requires i <= j <= |src|
    ensures Of(out + src[i..j]) == Of(out).Then(Slice(src, i, j))
  {
    var more := src[i..j];
    SliceOf(src, i, j, 0);
    AppendFrom(out, more, 0);
  }

  lemma {:induction false} SliceOf(src: string, i: nat, j: nat, k: nat)
    requires i <= j <= |src| && k <= j - i
    ensures From(src[i..j], k) == Slice(src, i + k, j)
    decreases j - i - k
  {
    if k < j - i { SliceOf(src, i, j, k + 1); }
  }

  lemma {:induction false} AppendFrom(a: string, b: string, i: nat)
    requires i <= |a|
    ensures From(a + b, i) == From(a, i).Then(Of(b))
    decreases |a| - i
  {
    if i < |a| {
      AppendFrom(a, b, i + 1);
    } else {
      TailOfSum(a, b, 0);
    }
  }

  lemma {:induction false} TailOfSum(a: string, b: string, i: nat)
    requires i <= |b|
    ensures From(a + b, |a| + i) == From(b, i)
    decreases |b| - i
  {
    if i < |b| { TailOfSum(a, b, i + 1); }
  }

  lemma {:induction false} ThenAssoc(a: Text, b: Text, c: Text)
    ensures a.Then(b).Then(c) == a.Then(b.Then(c))
  {
    if a.Ch? { ThenAssoc(a.tail, b, c); }
  }

  lemma {:induction false} ThenEnd(a: Text)
    ensures a.Then(End) == a
  {
    if a.Ch? { ThenEnd(a.tail); }
  }

  lemma {:induction false} Split(t: Text, n: nat)
    ensures t.Take(n).Then(t.Drop(n)) == t
  {
    if n > 0 && t.Ch? { Split(t.tail, n - 1); }
  }

  lemma {:induction false} DropMore(t: Text, m: nat, n: nat)
    ensures t.Drop(m).Drop(n) == t.Drop(m + n)
  {
    if m > 0 && t.Ch? { DropMore(t.tail, m - 1, n); }
  }

  lemma {:induction false} DropSize(t: Text, n: nat)
    ensures t.Drop(n).Size() == if n <= t.Size() then t.Size() - n else 0
    ensures t.Take(n).Size() == if n <= t.Size() then n else t.Size()
  {
    if n > 0 && t.Ch? { DropSize(t.tail, n - 1); }
  }

  lemma {:induction false} ThenSplits(a: Text, b: Text)
    ensures a.Then(b).Size() == a.Size() + b.Size()
    ensures a.Then(b).Take(a.Size()) == a && a.Then(b).Drop(a.Size()) == b
  {
    if a.Ch? { ThenSplits(a.tail, b); }
  }
}
