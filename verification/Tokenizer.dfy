/** my_strtok: a tokenizer that cuts a string in place and remembers where it stopped (src/stdlib/string.c:112-153). */
module Tokenizer {
  import opened Bytes
  import opened Splitting

  const NULL: int := -1

  // A string that starts at s and has its terminator at e.
  ghost predicate StringAt(b: seq<Byte>, s: int, e: int) {
    0 <= s <= e < |b| && b[e] == 0 && 0 !in b[s..e]
  }

  class Strtok {
    const buf: array<Byte>
    var saved: int        // the static saved_token, as an index
    ghost var limit: nat  // where the string being cut ends

    ghost predicate Valid()
      reads this, buf
    {
      saved == NULL || StringAt(buf[..], saved, limit)
    }

    // What is left to be cut.
    ghost function Rest(): seq<Byte>
      requires Valid()
      reads this, buf
    {
      if saved == NULL then [] else buf[..][saved..limit]
    }

    constructor (b: array<Byte>)
      ensures Valid() && buf == b && Rest() == []
    {
      buf := b;
      saved := NULL;
      limit := 0;
    }

    // Skips leading delimiters; stops at the terminator at the latest.
    method SkipDelimiters(start: nat, delim: Byte) returns (tok: nat)
      requires StringAt(buf[..], start, limit) && (delim != 0 || start < limit)
      ensures start <= tok <= limit && buf[tok] != delim
      ensures Split(buf[..][tok..limit], delim) == Split(buf[..][start..limit], delim)
    {
      tok := start;
      assert delim == 0 ==> buf[start] == buf[..][start..limit][0];
      while buf[tok] == delim
        invariant start <= tok <= limit && (delim == 0 ==> tok == start && buf[tok] != 0)
        invariant Split(buf[..][tok..limit], delim) == Split(buf[..][start..limit], delim)
        decreases limit - tok
      {
        SkipOne(buf[..], tok, limit, delim);
        tok := tok + 1;
      }
    }

    // The end of the run that starts at tok.
    method RunEnd(tok: nat, delim: Byte) returns (end: nat)
      requires StringAt(buf[..], tok, limit) && buf[tok] != 0 && buf[tok] != delim
      ensures tok < end <= limit && Solid(buf[..][tok..end], delim)
      ensures buf[end] == 0 || buf[end] == delim
    {
      end := tok;
      while buf[end] != 0 && buf[end] != delim
        invariant tok <= end <= limit && Solid(buf[..][tok..end], delim)
        decreases limit - end
      {
        assert buf[..][tok..end + 1] == buf[..][tok..end] + [buf[end]];
        end := end + 1;
      }
    }

    lemma OnlyTerminator(b: seq<Byte>, s: nat, e: nat, i: nat)
      requires StringAt(b, s, e) && s <= i <= e
      ensures b[i] == 0 <==> i == e
      ensures StringAt(b, i, e)
    {
      assert i < e ==> b[i] == b[s..e][i - s];
      assert b[i..e] == b[s..e][i - s..];
    }

    // Cuts the first run off the saved string.
    method Cut(delim: Byte) returns (tok: int, ghost e: int)
      requires saved != NULL && Valid() && (delim != 0 || saved < limit)
      modifies this`saved, buf
      ensures Valid()
      ensures var rest := old(Rest());
              if Split(rest, delim) == [] then tok == NULL && saved == NULL && buf[..] == old(buf[..])
              else old(saved) <= tok && e <= saved && StringAt(buf[..], tok, e)
                   && buf[..][tok..e] == Split(rest, delim)[0]
                   && Split(Rest(), delim) == Split(rest, delim)[1..]
                   && (buf[..] == old(buf[..])
                       || (e < limit && old(buf[e]) == delim && buf[..] == old(buf[..])[e := 0]))
    {
      hide Split;
      var start := SkipDelimiters(saved, delim);
      OnlyTerminator(buf[..], saved, limit, start);
      if buf[start] == 0 {
        SplitNothing(delim);
        assert buf[..][start..limit] == [];
        saved := NULL;
        return NULL, NULL;
      }
      var end := RunEnd(start, delim);
      OnlyTerminator(buf[..], start, limit, end);
      CutAt(buf[..], start, end, limit, delim);
      ghost var whole := buf[..];
      if buf[end] == 0 {
        saved := end;
        SplitNothing(delim);
        assert buf[..][end..limit] == [];
      } else {
        OnlyTerminator(buf[..], start, limit, end + 1);
        buf[end] := 0;
        saved := end + 1;
        assert buf[..][end + 1..limit] == whole[end + 1..limit];
      }
      assert buf[..][start..end] == whole[start..end] == whole[start..limit][..end - start];
      OnlyBefore(whole, start, limit, end);
      return start, end;
    }

    lemma OnlyBefore(b: seq<Byte>, s: nat, e: nat, i: nat)
      requires StringAt(b, s, e) && s <= i <= e
      ensures 0 !in b[s..i]
    {
      assert b[s..i] == b[s..e][..i - s];
    }

    // my_strtok: a string passed in replaces the rest; NULL goes on with it.  An empty
    // string passed in must not be cut at NUL: the skipping loop would run past its end.
    method Next(str: int, delim: Byte, ghost end: nat) returns (tok: int, ghost e: int)
      requires if str == NULL then Valid() else StringAt(buf[..], str, end) && (delim != 0 || str < end)
      modifies this, buf
      ensures Valid() && limit == if str != NULL then end else old(limit)
      ensures var rest := if str != NULL then old(buf[..][str..end]) else old(Rest());
              var from := if str != NULL then str else old(saved);
              if Split(rest, delim) == [] then tok == NULL && Split(Rest(), delim) == [] && buf[..] == old(buf[..])
              else from <= tok && e <= saved && StringAt(buf[..], tok, e) && buf[..][tok..e] == Split(rest, delim)[0]
                   && Split(Rest(), delim) == Split(rest, delim)[1..]
                   && (buf[..] == old(buf[..])
                       || (e < limit && old(buf[e]) == delim && buf[..] == old(buf[..])[e := 0]))
    {
      hide Split;
      SplitNothing(delim);
      if str != NULL {
        saved := str;
        limit := end;
      } else if saved == NULL || buf[saved] == 0 {
        if saved != NULL {
          OnlyTerminator(buf[..], saved, limit, saved);
        }
        return NULL, NULL;
      } else {
        OnlyTerminator(buf[..], saved, limit, saved);
      }
      tok, e := Cut(delim);
    }
  }

  // The only bytes that change are delimiters, which become terminators.
  ghost predicate OnlyCuts(before: seq<Byte>, after: seq<Byte>, delim: Byte) {
    && |after| == |before|
    && forall i | 0 <= i < |before| :: after[i] == before[i] || (before[i] == delim && after[i] == 0)
  }

  lemma OneCut(before: seq<Byte>, after: seq<Byte>, delim: Byte, e: int)
    requires after == before || (0 <= e < |before| && before[e] == delim && after == before[e := 0])
    ensures OnlyCuts(before, after, delim)
  {}

  lemma CutsTwice(a: seq<Byte>, b: seq<Byte>, c: seq<Byte>, delim: Byte)
    requires OnlyCuts(a, b, delim) && OnlyCuts(b, c, delim)
    ensures OnlyCuts(a, c, delim)
  {}

  // Where the tokens lie in the end.
  ghost predicate Lies(b: seq<Byte>, toks: seq<int>, ends: seq<int>, runs: seq<seq<Byte>>) {
    && |toks| == |ends| == |runs|
    && forall i | 0 <= i < |toks| :: StringAt(b, toks[i], ends[i]) && b[toks[i]..ends[i]] == runs[i]
  }

  lemma StillLies(b: seq<Byte>, after: seq<Byte>, toks: seq<int>, ends: seq<int>, runs: seq<seq<Byte>>, e: int)
    requires Lies(b, toks, ends, runs)
    requires after == b || (0 <= e < |b| && b[e] != 0 && after == b[e := 0]
             && forall i | 0 <= i < |ends| :: ends[i] <= e)
    ensures Lies(after, toks, ends, runs)
  {
    forall i | 0 <= i < |toks| ensures StringAt(after, toks[i], ends[i]) && after[toks[i]..ends[i]] == runs[i] {
      assert StringAt(b, toks[i], ends[i]);
      assert after[toks[i]..ends[i]] == b[toks[i]..ends[i]];
    }
  }

  // A call that goes on with the same string.
  method Another(t: Strtok, delim: Byte, ghost toks: seq<int>, ghost ends: seq<int>, ghost runs: seq<seq<Byte>>)
    returns (tok: int, ghost e: int)
    requires t.Valid() && delim != 0 && Lies(t.buf[..], toks, ends, runs)
             && forall i | 0 <= i < |ends| :: ends[i] <= t.saved
    modifies t, t.buf
    ensures t.Valid() && Lies(t.buf[..], toks, ends, runs) && OnlyCuts(old(t.buf[..]), t.buf[..], delim)
    ensures var rest := old(t.Rest());
            if Split(rest, delim) == [] then tok == NULL && Split(t.Rest(), delim) == []
            else tok != NULL && StringAt(t.buf[..], tok, e) && t.buf[..][tok..e] == Split(rest, delim)[0]
                 && e <= t.saved
                 && Split(t.Rest(), delim) == Split(rest, delim)[1..]
                 && forall i | 0 <= i < |ends| :: ends[i] <= t.saved
  {
    hide Split, Lies, OnlyCuts;
    ghost var before := t.buf[..];
    tok, e := t.Next(NULL, delim, 0);
    OneCut(before, t.buf[..], delim, e);
    StillLies(before, t.buf[..], toks, ends, runs, e);
  }

  // Repeated calls return, in order, exactly the runs of the string, and then NULL; the
  // tokens returned early are not disturbed by the later calls.
  method Tokens(t: Strtok, str: nat, delim: Byte, ghost end: nat) returns (toks: seq<int>, ghost ends: seq<int>)
    requires StringAt(t.buf[..], str, end) && delim != 0
    modifies t, t.buf
    ensures Lies(t.buf[..], toks, ends, Split(old(t.buf[..][str..end]), delim))
    ensures t.Valid() && Split(t.Rest(), delim) == [] && OnlyCuts(old(t.buf[..]), t.buf[..], delim)
  {
    hide Split, Lies, OnlyCuts;
    ghost var whole := t.buf[..];
    ghost var all := Split(t.buf[..][str..end], delim);
    ghost var done: nat := 0;
    toks, ends := [], [];
    var tok; ghost var e;
    tok, e := t.Next(str, delim, end);
    OneCut(whole, t.buf[..], delim, e);
    NoToken(t.buf[..], all);
    while tok != NULL
      invariant t.Valid() && |toks| == |ends| == done <= |all|
      invariant tok != NULL ==> done < |all| && StringAt(t.buf[..], tok, e) && t.buf[..][tok..e] == all[done]
                                && e <= t.saved
      invariant Split(t.Rest(), delim) == if tok != NULL then all[done + 1..] else []
      invariant tok == NULL ==> done == |all|
      invariant Lies(t.buf[..], toks, ends, all[..done]) && OnlyCuts(whole, t.buf[..], delim)
      invariant forall i | 0 <= i < |ends| :: tok != NULL ==> ends[i] <= t.saved
      decreases |all| - done
      modifies t, t.buf
    {
      OneMore(t.buf[..], toks, ends, all, tok, e);
      toks, ends, done := toks + [tok], ends + [e], done + 1;
      ghost var before := t.buf[..];
      tok, e := Another(t, delim, toks, ends, all[..done]);
      CutsTwice(whole, before, t.buf[..], delim);
    }
    assert all[..done] == all;
  }

  lemma NoToken(b: seq<Byte>, all: seq<seq<Byte>>)
    ensures Lies(b, [], [], all[..0])
  {}

  lemma OneMore(b: seq<Byte>, toks: seq<int>, ends: seq<int>, all: seq<seq<Byte>>, tok: int, e: int)
    requires |toks| < |all| && Lies(b, toks, ends, all[..|toks|]) && StringAt(b, tok, e) && b[tok..e] == all[|toks|]
    ensures Lies(b, toks + [tok], ends + [e], all[..|toks| + 1])
  {}
}
