/** The JavaScript string operations the deploy script relies on: `trim`,
    `split("0x")` and the first-character lower-casing of the confirmation. */
module Text {
  import opened Wrappers

  /** The WhiteSpace and LineTerminator code points that String.prototype.trim
      removes (section 22.1.3.32 of ECMA-262). */
  predicate IsWhitespace(c: char) {
    || c == '\t' || c == '\U{B}' || c == '\U{C}' || c == ' ' || c == '\U{A0}' || c == '\U{FEFF}'
    || c == '\n' || c == '\r' || c == '\U{2028}' || c == '\U{2029}'
    || c == '\U{1680}' || ('\U{2000}' <= c <= '\U{200A}')
    || c == '\U{202F}' || c == '\U{205F}' || c == '\U{3000}'
  }

  /** Neither end of `s` is whitespace. */
  predicate Trimmed(s: string) {
    |s| == 0 || (!IsWhitespace(s[0]) && !IsWhitespace(s[|s| - 1]))
  }

  function TrimStart(s: string): (r: string)
    ensures |r| <= |s| && r == s[|s| - |r|..]
    ensures |r| == 0 || !IsWhitespace(r[0])
  {
    if |s| > 0 && IsWhitespace(s[0]) then TrimStart(s[1..]) else s
  }

  function TrimEnd(s: string): (r: string)
    ensures |r| <= |s| && r == s[..|r|]
    ensures |r| == 0 || !IsWhitespace(r[|r| - 1])
  {
    if |s| > 0 && IsWhitespace(s[|s| - 1]) then TrimEnd(s[..|s| - 1]) else s
  }

  /** `r` is the infix of `s` starting at `i`, and everything around it is
      whitespace. */
  predicate InfixWithinWhitespace(s: string, r: string, i: int) {
    && 0 <= i <= |s| - |r|
    && r == s[i..i + |r|]
    && (forall j {:trigger IsWhitespace(s[j])} :: 0 <= j < i ==> IsWhitespace(s[j]))
    && (forall j {:trigger IsWhitespace(s[j])} :: i + |r| <= j < |s| ==> IsWhitespace(s[j]))
  }

  /** String.prototype.trim: the infix of `s` left after removing whitespace at
      both ends. */
  function Trim(s: string): (r: string)
    ensures Trimmed(r)
  {
    TrimEnd(TrimStart(s))
  }

  /** TrimStart removes whitespace only. */
  lemma {:induction false} TrimStartRemovesWhitespace(s: string)
    ensures forall i {:trigger IsWhitespace(s[i])} :: 0 <= i < |s| - |TrimStart(s)| ==> IsWhitespace(s[i])
    decreases |s|
  {
    if |s| > 0 && IsWhitespace(s[0]) {
      TrimStartRemovesWhitespace(s[1..]);
      forall i | 1 <= i < |s| - |TrimStart(s)|
        ensures IsWhitespace(s[i])
      {
        assert s[i] == s[1..][i - 1];
        assert IsWhitespace(s[1..][i - 1]);
      }
    }
  }

  /** TrimEnd removes whitespace only. */
  lemma {:induction false} TrimEndRemovesWhitespace(s: string)
    ensures forall i {:trigger IsWhitespace(s[i])} :: |TrimEnd(s)| <= i < |s| ==> IsWhitespace(s[i])
    decreases |s|
  {
    if |s| > 0 && IsWhitespace(s[|s| - 1]) {
      var u := s[..|s| - 1];
      TrimEndRemovesWhitespace(u);
      forall i | |TrimEnd(s)| <= i < |s| - 1
        ensures IsWhitespace(s[i])
      {
        assert s[i] == u[i];
        assert IsWhitespace(u[i]);
      }
    }
  }

  /** Trim removes only whitespace, and only at the two ends. */
  lemma TrimRemovesOnlyWhitespace(s: string)
    ensures exists i :: InfixWithinWhitespace(s, Trim(s), i)
  {
    var t := TrimStart(s);
    TrimStartRemovesWhitespace(s);
    TrimEndRemovesWhitespace(t);
    InfixOfSuffix(s, t, TrimEnd(t), |s| - |t|);
    assert InfixWithinWhitespace(s, Trim(s), |s| - |t|);
  }

  /** A prefix `r` of the suffix `t == s[k..]`, with whitespace before `k` and
      after `r` in `t`, is an infix of `s` within whitespace. */
  lemma InfixOfSuffix(s: string, t: string, r: string, k: int)
    requires 0 <= k <= |s| && t == s[k..] && |r| <= |t| && r == t[..|r|]
    requires forall j {:trigger IsWhitespace(s[j])} :: 0 <= j < k ==> IsWhitespace(s[j])
    requires forall j {:trigger IsWhitespace(t[j])} :: |r| <= j < |t| ==> IsWhitespace(t[j])
    ensures InfixWithinWhitespace(s, r, k)
  {
    assert r == s[k..k + |r|];
    forall j | k + |r| <= j < |s|
      ensures IsWhitespace(s[j])
    {
      assert s[j] == t[j - k];
    }
  }

  lemma TrimOfTrimmed(s: string)
    requires Trimmed(s)
    ensures Trim(s) == s
  {
  }

  lemma TrimIdempotent(s: string)
    ensures Trim(Trim(s)) == Trim(s)
  {
    TrimOfTrimmed(Trim(s));
  }

  /** The ASCII part of String.prototype.toLowerCase, applied to one character. */
  function LowerChar(c: char): char {
    if 'A' <= c <= 'Z' then (c as int + 32) as char else c
  }

  // ---------------------------------------------------------------------------
  // String.prototype.split with the separator "0x"
  // ---------------------------------------------------------------------------

  /** The separator "0x" occurs in `s` at index `i`. */
  predicate SepAt(s: string, i: int) {
    0 <= i && i + 1 < |s| && s[i] == '0' && s[i + 1] == 'x'
  }

  predicate NoSep(s: string) {
    forall i :: 0 <= i < |s| ==> !SepAt(s, i)
  }

  /** The first occurrence of "0x" at or after `from`. */
  function FirstSepFrom(s: string, from: nat): (r: Option<nat>)
    requires from <= |s|
    ensures r.Some? ==> from <= r.value && SepAt(s, r.value)
                        && forall j :: from <= j < r.value ==> !SepAt(s, j)
    ensures r.None? ==> forall j :: from <= j < |s| ==> !SepAt(s, j)
    decreases |s| - from
  {
    if from + 1 >= |s| then None
    else if s[from] == '0' && s[from + 1] == 'x' then Some(from)
    else FirstSepFrom(s, from + 1)
  }

  function FirstSep(s: string): (r: Option<nat>)
    ensures r.Some? ==> SepAt(s, r.value) && forall j :: 0 <= j < r.value ==> !SepAt(s, j)
    ensures r.None? ==> NoSep(s)
  {
    FirstSepFrom(s, 0)
  }

  /** A prefix of `s` that ends before the first "0x" holds no "0x". */
  lemma PrefixBeforeSep(s: string, i: nat)
    requires i <= |s|
    requires forall j :: 0 <= j < i ==> !SepAt(s, j)
    ensures NoSep(s[..i])
  {
    forall j | SepAt(s[..i], j)
      ensures false
    {
      assert SepAt(s, j);
    }
  }

  /** `s.split("0x")`: the pieces between successive occurrences of "0x",
      found left to right without overlap. */
  function Split(s: string): (r: seq<string>)
    ensures |r| >= 1
    ensures forall k {:trigger NoSep(r[k])} :: 0 <= k < |r| ==> NoSep(r[k])
    decreases |s|
  {
    match FirstSep(s)
    case None => [s]
    case Some(i) =>
      PrefixBeforeSep(s, i);
      [s[..i]] + Split(s[i + 2..])
  }

  /** The first piece ends at the first "0x", and a second piece exists
      exactly when there is one; it is the first piece of what follows. */
  lemma SplitPieces(s: string)
    ensures Split(s)[0] == match FirstSep(s)
                           case None => s
                           case Some(i) => s[..i]
    ensures |Split(s)| >= 2 <==> FirstSep(s).Some?
    ensures FirstSep(s).Some? ==> Split(s)[1] == Split(s[FirstSep(s).value + 2..])[0]
  {
  }

  /** The second piece of a split, when there is one, runs from just after
      the first "0x" to the next "0x" or the end. */
  lemma SplitSecondPiece(s: string)
    ensures |Split(s)| >= 2 <==> FirstSep(s).Some?
    ensures FirstSep(s).Some? ==>
              var after := s[FirstSep(s).value + 2..];
              Split(s)[1] == match FirstSep(after)
                             case None => after
                             case Some(j) => after[..j]
  {
    SplitPieces(s);
    if FirstSep(s).Some? {
      SplitPieces(s[FirstSep(s).value + 2..]);
    }
  }

  /** `pieces.join("0x")`. */
  function Join(pieces: seq<string>): string
    requires |pieces| >= 1
    decreases |pieces|
  {
    if |pieces| == 1 then pieces[0] else pieces[0] + "0x" + Join(pieces[1..])
  }

  /** Joining the pieces of a split gives back the original string. */
  lemma {:induction false} JoinSplit(s: string)
    ensures Join(Split(s)) == s
    decreases |s|
  {
    match FirstSep(s)
    case None =>
    case Some(i) =>
      var rest := s[i + 2..];
      JoinSplit(rest);
      assert Split(s) == [s[..i]] + Split(rest);
      assert Split(s)[1..] == Split(rest);
      assert s == s[..i] + "0x" + rest;
  }

  /** When the first piece holds no "0x", the first "0x" of `a + "0x" + b` is
      the one just after `a`: a trailing '0' of `a` is followed by '0', not 'x'. */
  lemma FirstSepAfterPiece(a: string, b: string)
    requires NoSep(a)
    ensures FirstSep(a + "0x" + b) == Some(|a|)
  {
    var s := a + "0x" + b;
    assert SepAt(s, |a|);
    forall j | 0 <= j < |a|
      ensures !SepAt(s, j)
    {
      if j + 1 < |a| {
        assert !SepAt(a, j);
      }
    }
  }

  /** Splitting a join of "0x"-free pieces gives the pieces back. */
  lemma {:induction false} SplitJoin(pieces: seq<string>)
    requires |pieces| >= 1
    requires forall k {:trigger NoSep(pieces[k])} :: 0 <= k < |pieces| ==> NoSep(pieces[k])
    ensures Split(Join(pieces)) == pieces
    decreases |pieces|
  {
    if |pieces| == 1 {
      assert FirstSep(pieces[0]).None? by {
        assert NoSep(pieces[0]);
      }
    } else {
      var tail := pieces[1..];
      forall k | 0 <= k < |tail|
        ensures NoSep(tail[k])
      {
        assert tail[k] == pieces[k + 1];
        assert NoSep(pieces[k + 1]);
      }
      SplitJoin(tail);
      assert NoSep(pieces[0]);
      SplitAfterPiece(pieces[0], Join(tail), tail);
      assert pieces == [pieces[0]] + tail;
    }
  }

  /** Splitting `a + "0x" + b` for a "0x"-free `a` yields `a`, then the
      pieces of `b`. */
  lemma SplitAfterPiece(a: string, b: string, tail: seq<string>)
    requires NoSep(a) && Split(b) == tail
    ensures Split(a + "0x" + b) == [a] + tail
  {
    var s := a + "0x" + b;
    FirstSepAfterPiece(a, b);
    SplitAtSep(s, |a|);
    assert s[..|a|] == a;
    assert s[|a| + 2..] == b;
  }

  /** One step of the split at its first "0x". */
  lemma SplitAtSep(s: string, i: nat)
    requires FirstSep(s) == Some(i)
    ensures Split(s) == [s[..i]] + Split(s[i + 2..])
  {
  }
}
