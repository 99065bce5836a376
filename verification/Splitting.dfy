/** A text cut at a delimiter into its maximal runs without it. */
module Splitting {
  import opened Bytes

  predicate Solid(s: seq<Byte>, delim: Byte) {
    delim !in s
  }

  function RunLength(text: seq<Byte>, delim: Byte): (n: nat)
    ensures n <= |text| && Solid(text[..n], delim) && (n < |text| ==> text[n] == delim)
  {
    if text == [] || text[0] == delim then 0 else 1 + RunLength(text[1..], delim)
  }

  // The maximal runs without the delimiter, in order.
  function Split(text: seq<Byte>, delim: Byte): seq<seq<Byte>>
    decreases |text|
  {
    if text == [] then []
    else if text[0] == delim then Split(text[1..], delim)
    else [text[..RunLength(text, delim)]] + Split(text[RunLength(text, delim)..], delim)
  }

  lemma SplitNothing(delim: Byte)
    ensures Split([], delim) == []
  {}

  lemma {:induction false} RunLengthIs(text: seq<Byte>, n: nat, delim: Byte)
    requires n <= |text| && Solid(text[..n], delim) && (n < |text| ==> text[n] == delim)
    ensures RunLength(text, delim) == n
  {
    if n == 0 {
    } else {
      assert text[..n] == [text[0]] + text[1..][..n - 1];
      RunLengthIs(text[1..], n - 1, delim);
    }
  }

  // A run that ends the text, or is followed by the delimiter, is the first part.
  lemma SplitRun(text: seq<Byte>, n: nat, delim: Byte)
    requires n <= |text| && Solid(text[..n], delim) && (n < |text| ==> text[n] == delim)
    ensures Split(text, delim) == (if n > 0 then [text[..n]] else [])
                                  + if n < |text| then Split(text[n + 1..], delim) else []
  {
    if n > 0 {
      RunLengthIs(text, n, delim);
      assert text[0] == text[..n][0];
      assert n < |text| ==> text[n..][1..] == text[n + 1..];
    }
  }

  lemma {:induction false} SplitAppend(a: seq<Byte>, b: seq<Byte>, delim: Byte)
    ensures Split(a + [delim] + b, delim) == Split(a, delim) + Split(b, delim)
    decreases |a|
  {
    hide Split;
    var n := RunLength(a, delim);
    var text := a + [delim] + b;
    assert text[..n] == a[..n];
    SplitRun(a, n, delim);
    SplitRun(text, n, delim);
    if n < |a| {
      assert text[n + 1..] == a[n + 1..] + [delim] + b;
      SplitAppend(a[n + 1..], b, delim);
    } else {
      assert text[n + 1..] == b;
      assert Split(a, delim) + Split(b, delim) == (if n > 0 then [a[..n]] else []) + Split(b, delim);
    }
  }

  // The first run of whole[tok..limit] is whole[tok..e].
  lemma CutAt(whole: seq<Byte>, tok: nat, e: nat, limit: nat, delim: Byte)
    requires tok < e <= limit <= |whole| && Solid(whole[tok..e], delim) && (e < limit ==> whole[e] == delim)
    ensures Split(whole[tok..limit], delim) == [whole[tok..e]]
                                               + if e < limit then Split(whole[e + 1..limit], delim) else []
  {
    var text := whole[tok..limit];
    assert text[..e - tok] == whole[tok..e];
    assert e < limit ==> text[e - tok + 1..] == whole[e + 1..limit];
    SplitRun(text, e - tok, delim);
  }

  // A delimiter in front of a text makes no difference.
  lemma SkipOne(whole: seq<Byte>, tok: nat, limit: nat, delim: Byte)
    requires tok < limit <= |whole| && whole[tok] == delim
    ensures Split(whole[tok..limit], delim) == Split(whole[tok + 1..limit], delim)
  {
    assert whole[tok..limit][1..] == whole[tok + 1..limit];
  }
}
