/** The string operations the interpreter applies to source lines:
    `str.strip`, `str.startswith` (Dafny's prefix operator `<=`),
    `str.replace`, and the character classes used by its regular
    expressions. Strings are sequences of characters. */
module Text {

  /** Python's `str.isspace` for one character: the ASCII whitespace
      characters, the four separators 0x1C-0x1F, and the Unicode spaces. */
  predicate IsSpace(c: char) {
    c == ' ' || ('\t' <= c <= '\r') || ('\U{1C}' <= c <= '\U{1F}')
    || c == '\U{85}' || c == '\U{A0}' || c == '\U{1680}'
    || ('\U{2000}' <= c <= '\U{200A}') || c == '\U{2028}' || c == '\U{2029}'
    || c == '\U{202F}' || c == '\U{205F}' || c == '\U{3000}'
  }

  /** The regular-expression class `\w`, restricted to ASCII. */
  predicate IsWordChar(c: char) {
    ('a' <= c <= 'z') || ('A' <= c <= 'Z') || ('0' <= c <= '9') || c == '_'
  }

  /** A text matched by `\w+`. */
  predicate IsName(s: string) {
    |s| > 0 && forall i :: 0 <= i < |s| ==> IsWordChar(s[i])
  }

  /** Variable names: every name the interpreter binds comes from `\w+`. */
  type Name = s: string | IsName(s) witness "_"

  predicate NoNewline(s: string) {
    forall i :: 0 <= i < |s| ==> s[i] != '\n'
  }

  /** True iff the raw line starts with a literal space. */
  predicate StartsWithSpace(s: string) {
    |s| > 0 && s[0] == ' '
  }

  /** `str.lstrip()`: drops the leading whitespace. */
  function LStrip(s: string): (r: string)
    ensures |r| <= |s| && r == s[|s| - |r|..]
    ensures forall i :: 0 <= i < |s| - |r| ==> IsSpace(s[i])
    ensures r == [] || !IsSpace(r[0])
  {
    if s != [] && IsSpace(s[0]) then LStrip(s[1..]) else s
  }

  /** `str.rstrip()`: drops the trailing whitespace. */
  function RStrip(s: string): (r: string)
    ensures |r| <= |s| && r == s[..|r|]
    ensures forall i :: |r| <= i < |s| ==> IsSpace(s[i])
    ensures r == [] || !IsSpace(r[|r| - 1])
  {
    if s != [] && IsSpace(s[|s| - 1]) then RStrip(s[..|s| - 1]) else s
  }

  /** `str.strip()`: the text between the leading and the trailing whitespace. */
  function Strip(s: string): (r: string)
    ensures |r| <= |s|
    ensures r == [] || (!IsSpace(r[0]) && !IsSpace(r[|r| - 1]))
  {
    RStrip(LStrip(s))
  }

  /** `r` is the slice of `s` that starts at `i`. */
  predicate SliceAt(s: string, i: nat, r: string) {
    i + |r| <= |s| && r == s[i..i + |r|]
  }

  /** `l` is a suffix of `s`. */
  predicate IsSuffix(l: string, s: string) {
    |l| <= |s| && l == s[|s| - |l|..]
  }

  /** `r` is a prefix of `l`. */
  predicate IsPrefix(r: string, l: string) {
    |r| <= |l| && r == l[..|r|]
  }

  /** `Strip(s)` is the slice of `s` that starts after the leading
      whitespace. */
  lemma StripIsSlice(s: string)
    ensures SliceAt(s, |s| - |LStrip(s)|, Strip(s))
  {
    LStripIsSuffix(s);
    StripIsPrefix(s);
    PrefixOfSlice(s, LStrip(s), Strip(s));
  }

  lemma LStripIsSuffix(s: string)
    ensures IsSuffix(LStrip(s), s)
  {
  }

  lemma StripIsPrefix(s: string)
    ensures IsPrefix(Strip(s), LStrip(s))
  {
    var l := LStrip(s);
    assert Strip(s) == RStrip(l);
  }

  /** A prefix of a suffix of `s` is a slice of `s`. */
  lemma PrefixOfSlice(s: string, l: string, r: string)
    requires IsSuffix(l, s) && IsPrefix(r, l)
    ensures SliceAt(s, |s| - |l|, r)
  {
    assert s[|s| - |l|..][..|r|] == s[|s| - |l|..|s| - |l| + |r|];
  }

  /** Only whitespace lies around `Strip(s)` in `s`. */
  lemma StripDropsSpaces(s: string)
    ensures var i, r := |s| - |LStrip(s)|, Strip(s);
      && (forall k :: 0 <= k < i ==> IsSpace(s[k]))
      && (forall k :: i + |r| <= k < |s| ==> IsSpace(s[k]))
  {
    var l := LStrip(s);
    SpacesAfterPrefix(s, |s| - |l|, RStrip(l));
  }

  /** What follows `r` in `s[i..]` is whitespace when it is in `s[i..]`. */
  lemma SpacesAfterPrefix(s: string, i: nat, r: string)
    requires i <= |s| && |r| <= |s| - i
    requires forall k :: |r| <= k < |s[i..]| ==> IsSpace(s[i..][k])
    ensures forall k :: i + |r| <= k < |s| ==> IsSpace(s[k])
  {
    forall k | i + |r| <= k < |s|
      ensures IsSpace(s[k])
    {
      assert s[k] == s[i..][k - i];
    }
  }

  /** Stripping is idempotent. */
  lemma StripIdempotent(s: string)
    ensures Strip(Strip(s)) == Strip(s)
  {
    var t := Strip(s);
    assert LStrip(t) == t;
    assert RStrip(t) == t;
  }

  /** Appending a character to `s` appends it to `LStrip(s)`, unless the
      whole text is whitespace. */
  lemma {:induction false} LStripAppend(s: string, c: char)
    ensures LStrip(s + [c]) == if LStrip(s) == [] && IsSpace(c) then [] else LStrip(s) + [c]
    decreases |s|
  {
    if s == [] {
      assert [c][1..] == [];
    } else if IsSpace(s[0]) {
      assert LStrip(s + [c]) == LStrip(s[1..] + [c]) by {
        assert (s + [c])[0] == s[0] && (s + [c])[1..] == s[1..] + [c];
      }
      LStripAppend(s[1..], c);
    } else {
      assert (s + [c])[0] == s[0];
    }
  }

  /** A trailing whitespace character, such as the line end that
      `readlines` keeps, does not change what `strip` returns. */
  lemma StripTrailingSpace(s: string, c: char)
    requires IsSpace(c)
    ensures Strip(s + [c]) == Strip(s)
  {
    LStripAppend(s, c);
    var l := LStrip(s);
    if l != [] {
      assert (l + [c])[..|l|] == l;
    }
  }

  // ---------------------------------------------------------------------
  // `str.replace(pat, rep)` with a non-empty pattern

  /** `pat` occurs in `s` at index `i`. */
  predicate OccursAt(s: string, pat: string, i: nat) {
    i + |pat| <= |s| && s[i..i + |pat|] == pat
  }

  ghost predicate Occurs(s: string, pat: string) {
    exists i: nat :: OccursAt(s, pat, i)
  }

  /** `s.replace(pat, rep)`: scans left to right and replaces every
      non-overlapping occurrence of `pat` by `rep`; the scan resumes after
      the replaced occurrence, so `rep` is never rescanned. */
  function ReplaceAll(s: string, pat: string, rep: string): string
    requires pat != []
    decreases |s|
  {
    if |s| < |pat| then s
    else if pat <= s then rep + ReplaceAll(s[|pat|..], pat, rep)
    else [s[0]] + ReplaceAll(s[1..], pat, rep)
  }

  /** `s.split(sep)`: the pieces between the non-overlapping occurrences of
      `sep` found by the same left-to-right scan. */
  function Split(s: string, sep: string): (parts: seq<string>)
    requires sep != []
    ensures |parts| >= 1 && parts[0] <= s
    decreases |s|
  {
    if |s| < |sep| then [s]
    else if sep <= s then [[]] + Split(s[|sep|..], sep)
    else
      var rest := Split(s[1..], sep);
      [[s[0]] + rest[0]] + rest[1..]
  }

  /** `sep.join(parts)`. */
  function Join(parts: seq<string>, sep: string): string
    requires |parts| >= 1
  {
    if |parts| == 1 then parts[0] else parts[0] + sep + Join(parts[1..], sep)
  }

  /** The first piece of a split ends where the leftmost occurrence of the
      separator starts: none starts inside it, and one starts right after
      it unless it is the whole text. This is the left-to-right scan of
      `str.split` and `str.replace`. */
  lemma {:induction false} SplitLeftmost(s: string, sep: string)
    requires sep != []
    ensures forall j :: 0 <= j < |Split(s, sep)[0]| ==> !OccursAt(s, sep, j)
    ensures |Split(s, sep)[0]| < |s| ==> OccursAt(s, sep, |Split(s, sep)[0]|)
    decreases |s|
  {
    if |s| < |sep| {
    } else if sep <= s {
      assert s[0..|sep|] == sep;
    } else {
      var rest := Split(s[1..], sep);
      SplitLeftmost(s[1..], sep);
      assert !OccursAt(s, sep, 0) by {
        assert s[0..|sep|] == s[..|sep|];
      }
      forall j | 1 <= j < |Split(s, sep)[0]|
        ensures !OccursAt(s, sep, j)
      {
        OccursInTail(s, sep, j);
      }
      if |Split(s, sep)[0]| < |s| {
        OccursInTail(s, sep, |Split(s, sep)[0]|);
      }
    }
  }

  /** Past the first character, an occurrence in `s` is one in its tail. */
  lemma OccursInTail(s: string, sep: string, j: nat)
    requires 1 <= j && s != []
    ensures OccursAt(s, sep, j) == OccursAt(s[1..], sep, j - 1)
  {
    if j + |sep| <= |s| {
      var a, b := s[j..j + |sep|], s[1..][j - 1..j - 1 + |sep|];
      assert |a| == |b|;
      forall k | 0 <= k < |a|
        ensures a[k] == b[k]
      {
        assert a[k] == s[j + k] && b[k] == s[1..][j - 1 + k];
      }
      assert a == b;
    }
  }

  /** An occurrence in `[c] + a` past its first character is one in `a`. */
  lemma OccursAfterHead(c: char, a: string, pat: string, i: nat)
    requires OccursAt([c] + a, pat, i + 1)
    ensures OccursAt(a, pat, i)
  {
    assert ([c] + a)[i + 1..i + 1 + |pat|] == a[i..i + |pat|];
  }

  /** A text shorter than the pattern does not contain it. */
  lemma ShortAbsent(s: string, pat: string)
    requires |s| < |pat|
    ensures !Occurs(s, pat)
  {
  }

  /** The first piece of a split that skipped the head character does not
      contain the separator when the tail's first piece does not. */
  lemma HeadPieceFree(s: string, sep: string, piece: string)
    requires sep != [] && |s| >= |sep| && !(sep <= s)
    requires piece <= s[1..] && !Occurs(piece, sep)
    ensures !Occurs([s[0]] + piece, sep)
  {
    var p0 := [s[0]] + piece;
    if Occurs(p0, sep) {
      var i: nat :| OccursAt(p0, sep, i);
      if i == 0 {
        assert false;
      } else {
        OccursAfterHead(s[0], piece, sep, i - 1);
        assert false;
      }
    }
  }

  /** No piece that `Split` produces contains the separator. */
  lemma {:induction false} SplitPiecesFree(s: string, sep: string)
    requires sep != []
    ensures forall k :: 0 <= k < |Split(s, sep)| ==> !Occurs(Split(s, sep)[k], sep)
    decreases |s|
  {
    var parts := Split(s, sep);
    if |s| < |sep| {
      ShortAbsent(s, sep);
    } else if sep <= s {
      var tail := Split(s[|sep|..], sep);
      SplitPiecesFree(s[|sep|..], sep);
      assert parts == [[]] + tail;
      ShortAbsent([], sep);
    } else {
      var rest := Split(s[1..], sep);
      SplitPiecesFree(s[1..], sep);
      HeadPieceFree(s, sep, rest[0]);
      assert parts == [[s[0]] + rest[0]] + rest[1..];
      assert forall k :: 1 <= k < |parts| ==> parts[k] == rest[k];
    }
  }

  /** `s.replace(pat, rep) == rep.join(s.split(pat))`. */
  lemma {:induction false} ReplaceAllIsJoinSplit(s: string, pat: string, rep: string)
    requires pat != []
    ensures ReplaceAll(s, pat, rep) == Join(Split(s, pat), rep)
    decreases |s|
  {
    if |s| < |pat| {
    } else if pat <= s {
      ReplaceAllIsJoinSplit(s[|pat|..], pat, rep);
      JoinEmptyHead(Split(s[|pat|..], pat), rep);
    } else {
      ReplaceAllIsJoinSplit(s[1..], pat, rep);
      JoinExtendHead(s[0], Split(s[1..], pat), rep);
    }
  }

  lemma JoinEmptyHead(parts: seq<string>, sep: string)
    requires |parts| >= 1
    ensures Join([[]] + parts, sep) == sep + Join(parts, sep)
  {
    assert ([[]] + parts)[1..] == parts;
  }

  lemma JoinExtendHead(c: char, parts: seq<string>, sep: string)
    requires |parts| >= 1
    ensures Join([[c] + parts[0]] + parts[1..], sep) == [c] + Join(parts, sep)
  {
    var ext := [[c] + parts[0]] + parts[1..];
    if |parts| > 1 {
      assert ext[1..] == parts[1..];
    }
  }

  /** Replacing a pattern by itself gives back the text. */
  lemma {:induction false} ReplaceAllSelf(s: string, pat: string)
    requires pat != []
    ensures ReplaceAll(s, pat, pat) == s
    decreases |s|
  {
    if |s| < |pat| {
    } else if pat <= s {
      ReplaceAllSelf(s[|pat|..], pat);
      assert s == s[..|pat|] + s[|pat|..];
    } else {
      ReplaceAllSelf(s[1..], pat);
      assert s == [s[0]] + s[1..];
    }
  }

  /** Round trip: joining the pieces of a split with its separator gives
      back the text. */
  lemma SplitJoinRoundTrip(s: string, sep: string)
    requires sep != []
    ensures Join(Split(s, sep), sep) == s
  {
    ReplaceAllIsJoinSplit(s, sep, sep);
    ReplaceAllSelf(s, sep);
  }

  /** A text in which the pattern does not occur is left unchanged. */
  lemma {:induction false} ReplaceAllAbsent(s: string, pat: string, rep: string)
    requires pat != [] && !Occurs(s, pat)
    ensures ReplaceAll(s, pat, rep) == s
    decreases |s|
  {
    if |s| < |pat| {
    } else {
      assert !OccursAt(s, pat, 0);
      if Occurs(s[1..], pat) {
        var i: nat :| OccursAt(s[1..], pat, i);
        assert s[1..][i..i + |pat|] == s[i + 1..i + 1 + |pat|];
        assert OccursAt(s, pat, i + 1);
        assert false;
      }
      ReplaceAllAbsent(s[1..], pat, rep);
      assert s == [s[0]] + s[1..];
    }
  }

  /** `str.replace` leaves a text unchanged exactly when the pattern does
      not occur in it or is replaced by itself. */
  lemma ReplaceAllUnchanged(s: string, pat: string, rep: string)
    requires pat != []
    ensures ReplaceAll(s, pat, rep) == s <==> (!Occurs(s, pat) || rep == pat)
  {
    if !Occurs(s, pat) {
      ReplaceAllAbsent(s, pat, rep);
    } else if rep == pat {
      ReplaceAllSelf(s, pat);
    } else {
      var i: nat :| OccursAt(s, pat, i);
      ReplaceAllChanges(s, pat, rep, i);
    }
  }

  lemma {:induction false} ReplaceAllChanges(s: string, pat: string, rep: string, i: nat)
    requires pat != [] && OccursAt(s, pat, i) && rep != pat
    ensures ReplaceAll(s, pat, rep) != s
    decreases |s|
  {
    if pat <= s {
      var r := ReplaceAll(s[|pat|..], pat, rep);
      ReplaceAllLength(s[|pat|..], pat, rep);
      assert ReplaceAll(s, pat, rep) == rep + r;
      if |rep| == |pat| {
        assert (rep + r)[..|pat|] == rep;
        assert (rep + r)[..|pat|] != s[..|pat|];
      } else {
        assert |rep + r| != |s|;
      }
    } else {
      assert !OccursAt(s, pat, 0) by {
        assert s[0..|pat|] == s[..|pat|];
      }
      OccursInTail(s, pat, i);
      ReplaceAllChanges(s[1..], pat, rep, i - 1);
      assert ReplaceAll(s, pat, rep)[1..] == ReplaceAll(s[1..], pat, rep);
    }
  }

  /** A replacement no shorter than the pattern never shortens the text,
      and one no longer never lengthens it. */
  lemma {:induction false} ReplaceAllLength(s: string, pat: string, rep: string)
    requires pat != []
    ensures |rep| >= |pat| ==> |ReplaceAll(s, pat, rep)| >= |s|
    ensures |rep| <= |pat| ==> |ReplaceAll(s, pat, rep)| <= |s|
    decreases |s|
  {
    if |s| < |pat| {
    } else if pat <= s {
      ReplaceAllLength(s[|pat|..], pat, rep);
    } else {
      ReplaceAllLength(s[1..], pat, rep);
    }
  }
}
