/**
 * The two JavaScript string operations the note pipeline relies on:
 * `String.prototype.split` with a one-character separator and
 * `String.prototype.trim`. Strings are sequences of characters.
 */
module JsString {

  /** The characters `trim` removes: ECMAScript WhiteSpace and LineTerminator. */
  predicate IsWhitespace(c: char) {
    || c == '\t' || c == '\n' || c == '\U{000B}' || c == '\U{000C}' || c == '\r'
    || c == ' ' || c == '\U{00A0}' || c == '\U{1680}'
    || ('\U{2000}' <= c <= '\U{200A}')
    || c == '\U{2028}' || c == '\U{2029}' || c == '\U{202F}' || c == '\U{205F}'
    || c == '\U{3000}' || c == '\U{FEFF}'
  }

  /** Every character of `s` from index `lo` up to `hi` is whitespace. */
  predicate WhitespaceIn(s: string, lo: nat, hi: nat)
    requires lo <= hi <= |s|
  {
    forall i :: lo <= i < hi ==> IsWhitespace(s[i])
  }

  /** Neither the first nor the last character is whitespace. */
  predicate Trimmed(s: string) {
    s == [] || (!IsWhitespace(s[0]) && !IsWhitespace(s[|s| - 1]))
  }

  /** `r` is what is left of `s` after cutting `lead` whitespace characters from the front and only whitespace from the back. */
  predicate Strips(s: string, r: string, lead: nat) {
    && lead + |r| <= |s|
    && s[lead..lead + |r|] == r
    && WhitespaceIn(s, 0, lead)
    && WhitespaceIn(s, lead + |r|, |s|)
  }

  /** `pieces` joined with `sep` between neighbours, as `Array.prototype.join(sep)`. */
  function Join(pieces: seq<string>, sep: char): string {
    if |pieces| == 0 then []
    else if |pieces| == 1 then pieces[0]
    else pieces[0] + [sep] + Join(pieces[1..], sep)
  }

  /**
   * `s.split(sep)`: the maximal runs between separators, empty runs included,
   * so the empty string gives one empty piece.
   */
  function Split(s: string, sep: char): (pieces: seq<string>)
    ensures |pieces| >= 1
    decreases |s|
  {
    if s == [] then [[]]
    else
      var rest := Split(s[1..], sep);
      if s[0] == sep then [[]] + rest
      else [[s[0]] + rest[0]] + rest[1..]
  }

  /** Joining the pieces of a split with the separator gives back the string. */
  lemma {:induction false} JoinSplit(s: string, sep: char)
    ensures Join(Split(s, sep), sep) == s
    decreases |s|
  {
    if s != [] {
      var rest := Split(s[1..], sep);
      JoinSplit(s[1..], sep);
      if s[0] == sep {
        assert Split(s, sep) == [[]] + rest;
        assert ([[]] + rest)[1..] == rest;
      } else {
        var pieces := Split(s, sep);
        assert pieces == [[s[0]] + rest[0]] + rest[1..];
        if |rest| == 1 {
          assert Join(rest, sep) == rest[0];
        } else {
          assert pieces[1..] == rest[1..];
          assert Join(rest, sep) == rest[0] + [sep] + Join(rest[1..], sep);
        }
        assert [s[0]] + s[1..] == s;
      }
    }
  }

  /** No piece of a split holds the separator, and there is one piece more than there are separators. */
  lemma {:induction false} SplitPieces(s: string, sep: char)
    ensures |Split(s, sep)| == multiset(s)[sep] + 1
    ensures forall i :: 0 <= i < |Split(s, sep)| ==> sep !in Split(s, sep)[i]
    decreases |s|
  {
    if s != [] {
      SplitPieces(s[1..], sep);
      assert s == [s[0]] + s[1..];
      assert multiset(s) == multiset{s[0]} + multiset(s[1..]);
      var rest := Split(s[1..], sep);
      if s[0] != sep {
        var pieces := Split(s, sep);
        forall i | 0 <= i < |pieces| ensures sep !in pieces[i] {
          if i > 0 { assert pieces[i] == rest[i]; }
          else { assert pieces[0] == [s[0]] + rest[0]; }
        }
      }
    }
  }

  /** Cuts leading whitespace, as `trimStart`. */
  function TrimStart(s: string): (r: string)
    ensures |r| <= |s| && r == s[|s| - |r|..]
    ensures WhitespaceIn(s, 0, |s| - |r|)
    ensures r == [] || !IsWhitespace(r[0])
  {
    if s != [] && IsWhitespace(s[0]) then
      var r := TrimStart(s[1..]);
      assert forall i :: 1 <= i < |s| - |r| ==> s[i] == s[1..][i - 1];
      r
    else s
  }

  /** Cuts trailing whitespace, as `trimEnd`. */
  function TrimEnd(s: string): (r: string)
    ensures |r| <= |s| && r == s[..|r|]
    ensures WhitespaceIn(s, |r|, |s|)
    ensures r == [] || !IsWhitespace(r[|r| - 1])
  {
    if s != [] && IsWhitespace(s[|s| - 1]) then
      var r := TrimEnd(s[..|s| - 1]);
      assert forall i :: |r| <= i < |s| - 1 ==> s[i] == s[..|s| - 1][i];
      r
    else s
  }

  /** `s.trim()`: whitespace cut from both ends, nothing else touched. */
  function Trim(s: string): (r: string)
    ensures Trimmed(r)
    ensures Strips(s, r, |s| - |TrimStart(s)|)
  {
    var t := TrimStart(s);
    var r := TrimEnd(t);
    StripsBothEnds(s, t, r);
    r
  }

  /** Cutting whitespace from the front and then from the back of what is left is a strip of `s`. */
  lemma StripsBothEnds(s: string, t: string, r: string)
    requires |t| <= |s| && t == s[|s| - |t|..] && WhitespaceIn(s, 0, |s| - |t|)
    requires |r| <= |t| && r == t[..|r|] && WhitespaceIn(t, |r|, |t|)
    ensures Strips(s, r, |s| - |t|)
  {
    var k := |s| - |t|;
    assert s[k..k + |r|] == r;
    forall i | k + |r| <= i < |s| ensures IsWhitespace(s[i]) {
      assert s[i] == t[i - k];
    }
  }

  /** Splitting a join recovers the pieces, provided no piece holds the separator. */
  lemma {:induction false} SplitJoin(pieces: seq<string>, sep: char)
    requires |pieces| >= 1
    requires forall i :: 0 <= i < |pieces| ==> sep !in pieces[i]
    ensures Split(Join(pieces, sep), sep) == pieces
  {
    if |pieces| == 1 {
      SplitNoSeparator(pieces[0], sep);
    } else {
      SplitJoin(pieces[1..], sep);
      SplitAfterPiece(pieces[0], Join(pieces[1..], sep), sep);
      assert pieces == [pieces[0]] + pieces[1..];
    }
  }

  lemma {:induction false} SplitNoSeparator(s: string, sep: char)
    requires sep !in s
    ensures Split(s, sep) == [s]
  {
    if s != [] {
      assert s[0] != sep && sep !in s[1..];
      SplitNoSeparator(s[1..], sep);
      assert [s[0]] + s[1..] == s;
    }
  }

  lemma {:induction false} SplitAfterPiece(a: string, b: string, sep: char)
    requires sep !in a
    ensures Split(a + [sep] + b, sep) == [a] + Split(b, sep)
  {
    var s := a + [sep] + b;
    if a == [] {
      assert s[0] == sep && s[1..] == b;
    } else {
      assert s[0] == a[0] != sep;
      assert s[1..] == a[1..] + [sep] + b;
      var rest := Split(s[1..], sep);
      assert rest == [a[1..]] + Split(b, sep) by {
        SplitAfterPiece(a[1..], b, sep);
      }
      assert Split(s, sep) == [[a[0]] + a[1..]] + Split(b, sep);
      assert [a[0]] + a[1..] == a;
    }
  }

  /** `trim` leaves a string that starts and ends with non-whitespace unchanged. */
  lemma TrimOfTrimmed(s: string)
    requires Trimmed(s)
    ensures Trim(s) == s
  {
    assert Strips(s, s, 0) by {
      assert s[0..|s|] == s;
    }
    TrimUnique(s, s, 0);
  }

  /** Two strips of `s` that leave no whitespace at either end are the same string. */
  lemma StripsUnique(s: string, r: string, a: nat, u: string, b: nat)
    requires Strips(s, r, a) && Trimmed(r)
    requires Strips(s, u, b) && Trimmed(u)
    ensures r == u
  {
    if r != [] {
      assert s[a] == r[0] && s[a + |r| - 1] == r[|r| - 1];
    }
    if u != [] {
      assert s[b] == u[0] && s[b + |u| - 1] == u[|u| - 1];
    }
    assert |r| == |u|;
    assert r != [] ==> a == b;
  }

  /** Any strip of `s` that leaves no whitespace at either end is `trim(s)`. */
  lemma TrimUnique(s: string, r: string, lead: nat)
    requires Strips(s, r, lead) && Trimmed(r)
    ensures r == Trim(s)
  {
    StripsUnique(s, r, lead, Trim(s), |s| - |TrimStart(s)|);
  }

  /** Trimming twice is trimming once. */
  lemma TrimIdempotent(s: string)
    ensures Trim(Trim(s)) == Trim(s)
  {
    TrimOfTrimmed(Trim(s));
  }
}
