/**
 * Foundation string operations used by the extractor, over `seq<char>`:
 * literal substring search (`range(of:)`), `replacingOccurrences(of:with: "")`,
 * `trimmingCharacters(in:)` and `split(separator:)`.
 */
module Text {
  import opened Wrappers

  /** `p` occurs in `s` starting at index `i`. */
  predicate At(s: string, p: string, i: int) {
    0 <= i && i + |p| <= |s| && s[i..i + |p|] == p
  }

  lemma AtShift(s: string, p: string, k: int)
    requires |s| > 0 && 0 <= k
    ensures At(s[1..], p, k) <==> At(s, p, k + 1)
  {
    if 0 <= k && k + |p| <= |s| - 1 {
      assert s[1..][k..k + |p|] == s[k + 1..k + 1 + |p|];
    }
  }

  /** The first index at or after `i` where `p` occurs in `s`. */
  function FindFrom(s: string, p: string, i: nat): (r: Option<nat>)
    decreases |s| - i
    ensures r.Some? ==> i <= r.value && At(s, p, r.value)
    ensures r.Some? ==> forall k :: i <= k < r.value ==> !At(s, p, k)
    ensures r.None? ==> forall k :: i <= k ==> !At(s, p, k)
  {
    if i + |p| > |s| then None
    else if At(s, p, i) then Some(i)
    else FindFrom(s, p, i + 1)
  }

  /** The first index where `p` occurs in `s` (a literal `range(of:)`). */
  function Find(s: string, p: string): (r: Option<nat>)
    ensures r.Some? ==> At(s, p, r.value)
    ensures r.Some? ==> forall k :: 0 <= k < r.value ==> !At(s, p, k)
    ensures r.None? ==> forall k :: !At(s, p, k)
  {
    FindFrom(s, p, 0)
  }

  /**
   * `s.replacingOccurrences(of: t, with: "")`: one left-to-right pass that
   * deletes non-overlapping occurrences of `t`.
   */
  function RemoveAll(s: string, t: string): (r: string)
    requires |t| > 0
    decreases |s|
    ensures |r| <= |s|
  {
    if At(s, t, 0) then RemoveAll(s[|t|..], t)
    else if |s| == 0 then []
    else [s[0]] + RemoveAll(s[1..], t)
  }

  /** The pass never lengthens its input, and shortens it exactly when `t` occurs. */
  lemma {:induction false} RemoveAllLength(s: string, t: string)
    requires |t| > 0
    decreases |s|
    ensures |RemoveAll(s, t)| <= |s|
    ensures |RemoveAll(s, t)| == |s| <==> forall k :: !At(s, t, k)
  {
    if At(s, t, 0) {
      RemoveAllLength(s[|t|..], t);
    } else if |s| > 0 {
      RemoveAllLength(s[1..], t);
      assert forall k :: 0 <= k ==> (At(s[1..], t, k) <==> At(s, t, k + 1)) by {
        forall k | 0 <= k ensures At(s[1..], t, k) <==> At(s, t, k + 1) { AtShift(s, t, k); }
      }
      if forall k :: !At(s[1..], t, k) {
        forall k ensures !At(s, t, k) {
          if k != 0 { assert !At(s[1..], t, k - 1); }
        }
      }
    }
  }

  /** Reference definition: `s` with every `c` deleted. */
  function Drop(s: string, c: char): (r: string)
    ensures forall x :: x in r <==> x in s && x != c
  {
    if |s| == 0 then []
    else if s[0] == c then Drop(s[1..], c)
    else [s[0]] + Drop(s[1..], c)
  }

  lemma {:induction false} DropAppend(a: string, b: string, c: char)
    ensures Drop(a + b, c) == Drop(a, c) + Drop(b, c)
  {
    if |a| > 0 {
      assert (a + b)[1..] == a[1..] + b;
      DropAppend(a[1..], b, c);
    } else {
      assert a + b == b;
    }
  }

  lemma {:induction false} DropAbsent(s: string, c: char)
    requires c !in s
    ensures Drop(s, c) == s
  {
    if |s| > 0 {
      assert s[0] != c;
      DropAbsent(s[1..], c);
    }
  }

  /** Deleting a one-character token is deleting that character. */
  lemma {:induction false} RemoveCharIsDrop(s: string, c: char)
    ensures RemoveAll(s, [c]) == Drop(s, c)
  {
    if |s| > 0 {
      assert At(s, [c], 0) <==> s[0] == c;
      RemoveCharIsDrop(s[1..], c);
    }
  }

  /** A slice is the slices of its three consecutive parts, joined. */
  lemma SliceJoin(s: string, i: int, j: int, k: int, l: int)
    requires 0 <= i <= j <= k <= l <= |s|
    ensures s[i..l] == s[i..j] + s[j..k] + s[k..l]
  {
  }

  lemma AtHead(s: string, t: string, i: int)
    requires |t| > 0 && At(s, t, i)
    ensures s[i] == t[0]
  {
    assert s[i..i + |t|][0] == t[0];
  }

  lemma NotAtHead(s: string, t: string)
    requires |s| > 0 && |t| > 0 && s[0] != t[0]
    ensures !At(s, t, 0)
  {
    if At(s, t, 0) { AtHead(s, t, 0); }
  }

  /** When no character of `s` can begin `t`, the pass copies `s` and continues after it. */
  lemma {:induction false} RemoveAllSkipsPrefix(s: string, z: string, t: string)
    requires |t| > 0 && t[0] !in s
    ensures RemoveAll(s + z, t) == s + RemoveAll(z, t)
  {
    if |s| > 0 {
      var sz := s + z;
      assert sz[0] == s[0] && s[0] in s;
      NotAtHead(sz, t);
      assert sz[1..] == s[1..] + z;
      RemoveAllSkipsPrefix(s[1..], z, t);
      calc {
        RemoveAll(sz, t);
        [sz[0]] + RemoveAll(sz[1..], t);
        [s[0]] + (s[1..] + RemoveAll(z, t));
        { assert [s[0]] + s[1..] == s; }
        s + RemoveAll(z, t);
      }
    } else {
      assert s + z == z;
    }
  }

  /** The character sets of `trimmingCharacters(in:)`. */
  datatype CharClass = Whitespaces | WhitespacesAndNewlines

  /**
   * Foundation's whitespace set (`CharacterSet.whitespaces`): tab, the space
   * separators, and U+200B ZERO WIDTH SPACE, which Foundation counts with
   * U+2000 to U+200A.
   */
  predicate IsWhitespace(c: char) {
    c == ' ' || c == '\t' || c == '\U{A0}' || c == '\U{1680}' || ('\U{2000}' <= c <= '\U{200B}')
    || c == '\U{202F}' || c == '\U{205F}' || c == '\U{3000}'
  }

  /** U+000A to U+000D, U+0085 and the Zl and Zp separators. */
  predicate IsNewline(c: char) {
    ('\n' <= c <= '\r') || c == '\U{85}' || c == '\U{2028}' || c == '\U{2029}'
  }

  predicate InClass(c: char, k: CharClass) {
    match k
    case Whitespaces => IsWhitespace(c)
    case WhitespacesAndNewlines => IsWhitespace(c) || IsNewline(c)
  }

  /** Neither end of `s` is in the class. */
  predicate Trimmed(s: string, k: CharClass) {
    |s| == 0 || (!InClass(s[0], k) && !InClass(s[|s| - 1], k))
  }

  /** `r` is `s[i..i + |r|]` and every character of `s` outside it is in the class. */
  predicate StrippedFrom(s: string, r: string, i: int, k: CharClass) {
    0 <= i && i + |r| <= |s| && r == s[i..i + |r|]
    && (forall j :: 0 <= j < i ==> InClass(s[j], k))
    && (forall j :: i + |r| <= j < |s| ==> InClass(s[j], k))
  }

  function LeadingCount(s: string, k: CharClass): (n: nat)
    ensures n <= |s|
    ensures forall i :: 0 <= i < n ==> InClass(s[i], k)
    ensures n < |s| ==> !InClass(s[n], k)
  {
    if |s| == 0 || !InClass(s[0], k) then 0 else 1 + LeadingCount(s[1..], k)
  }

  function TrailingCount(s: string, k: CharClass): (n: nat)
    ensures n <= |s|
    ensures forall i :: |s| - n <= i < |s| ==> InClass(s[i], k)
    ensures n < |s| ==> !InClass(s[|s| - 1 - n], k)
  {
    if |s| == 0 || !InClass(s[|s| - 1], k) then 0 else 1 + TrailingCount(s[..|s| - 1], k)
  }

  /**
   * `s.trimmingCharacters(in: k)`: the infix of `s` left once every leading
   * and trailing character of the class is removed.
   */
  function Trim(s: string, k: CharClass): (r: string)
    ensures Trimmed(r, k)
    ensures exists i :: StrippedFrom(s, r, i, k)
    ensures Trimmed(s, k) ==> r == s
  {
    var a := LeadingCount(s, k);
    var rest := s[a..];
    var r := rest[..|rest| - TrailingCount(rest, k)];
    assert r == s[a..a + |r|];
    assert forall j :: a + |r| <= j < |s| ==> InClass(s[j], k) by {
      forall j | a + |r| <= j < |s| ensures InClass(s[j], k) { assert s[j] == rest[j - a]; }
    }
    assert StrippedFrom(s, r, a, k);
    r
  }

  lemma TrimIdempotent(s: string, k: CharClass)
    ensures Trim(Trim(s, k), k) == Trim(s, k)
  {
  }

  /** A trailing zero-width space is trimmed by both classes, as Foundation's whitespace set holds it. */
  lemma ZeroWidthSpaceTrimmed(s: string, k: CharClass)
    requires Trimmed(s, k)
    ensures Trim(s + "\U{200B}", k) == s
  {
    var t := s + "\U{200B}";
    var r := Trim(t, k);
    var i :| StrippedFrom(t, r, i, k);
    if |s| == 0 {
      assert |r| == 0;
    } else {
      assert !InClass(t[0], k) && !InClass(t[|s| - 1], k);
      assert i == 0 && |r| == |s|;
    }
  }

  /** Reference definition: the pieces laid end to end. */
  function Concat(pieces: seq<string>): string {
    if |pieces| == 0 then [] else pieces[0] + Concat(pieces[1..])
  }

  /** Around a first separator at `i`, dropping separators keeps the piece before it whole. */
  lemma DropAround(s: string, c: char, i: nat)
    requires i < |s| && s[i] == c && c !in s[..i]
    ensures Drop(s, c) == s[..i] + Drop(s[i + 1..], c)
  {
    var tail := s[i..];
    assert s == s[..i] + tail;
    DropAppend(s[..i], tail, c);
    DropAbsent(s[..i], c);
    assert tail[1..] == s[i + 1..];
  }

  /** No separator before the first one found, so the text is the piece then the rest. */
  lemma SplitAtFirst(s: string, c: char, i: nat)
    requires Find(s, [c]) == Some(i)
    ensures i < |s| && c !in s[..i]
    ensures Drop(s, c) == s[..i] + Drop(s[i + 1..], c)
  {
    forall j | 0 <= j < i ensures s[j] != c { assert !At(s, [c], j); }
    assert s[i] == c by { assert s[i..i + 1] == [c]; }
    DropAround(s, c, i);
  }

  /** With no separator at all the text is one piece. */
  lemma SplitNone(s: string, c: char)
    requires Find(s, [c]).None?
    ensures Drop(s, c) == s
  {
    assert c !in s by {
      forall j | 0 <= j < |s| ensures s[j] != c { assert !At(s, [c], j); }
    }
    DropAbsent(s, c);
  }

  /**
   * `s.split(separator: c)` with Swift's defaults: empty pieces are omitted.
   * Together the pieces are `s` without its separators.
   */
  function Split(s: string, c: char): (r: seq<string>)
    decreases |s|
    ensures forall i :: 0 <= i < |r| ==> |r[i]| > 0 && c !in r[i]
    ensures Concat(r) == Drop(s, c)
  {
    match Find(s, [c])
    case None =>
      SplitNone(s, c);
      if |s| == 0 then [] else [s]
    case Some(i) =>
      SplitAtFirst(s, c, i);
      var piece := s[..i];
      var rest := Split(s[i + 1..], c);
      if |piece| == 0 then rest else [piece] + rest
  }

  /** A separator at `i` with none before it is the first one `Find` reports. */
  lemma FindFirstChar(s: string, c: char, i: nat)
    requires i < |s| && s[i] == c && c !in s[..i]
    ensures Find(s, [c]) == Some(i)
  {
    assert At(s, [c], i) by { assert s[i..i + 1] == [c]; }
    var j := Find(s, [c]).value;
    assert s[j] == c by { assert s[j..j + 1] == [c]; }
  }

  /** A text without a separator is one piece, or none when it is empty. */
  lemma SplitWithoutSeparator(s: string, c: char)
    requires c !in s
    ensures Split(s, c) == (if |s| == 0 then [] else [s])
  {
    forall k | 0 <= k ensures !At(s, [c], k) {
      if k + 1 <= |s| { assert s[k..k + 1][0] == s[k]; }
    }
  }

  /** With a first separator at `i`, the piece before it (if not empty) comes first. */
  lemma SplitAtSeparator(s: string, c: char, i: nat)
    requires i < |s| && s[i] == c && c !in s[..i]
    ensures Split(s, c) == (if i == 0 then [] else [s[..i]]) + Split(s[i + 1..], c)
  {
    FindFirstChar(s, c, i);
  }

  /** The case of `SplitAppend` where `a` holds no separator. */
  lemma SplitAppendPlain(a: string, b: string, c: char)
    requires c !in a
    ensures Split(a + [c] + b, c) == Split(a, c) + Split(b, c)
  {
    var s := a + [c] + b;
    assert s[..|a|] == a;
    assert s[|a| + 1..] == b;
    SplitAtSeparator(s, c, |a|);
    SplitWithoutSeparator(a, c);
  }

  /** The first separator of a text that holds one. */
  lemma FirstSeparator(a: string, c: char) returns (i: nat)
    requires c in a
    ensures i < |a| && a[i] == c && c !in a[..i]
  {
    var k :| 0 <= k < |a| && a[k] == c;
    assert At(a, [c], k) by { assert a[k..k + 1] == [c]; }
    i := Find(a, [c]).value;
    SplitAtFirst(a, c, i);
  }

  /** In `a + [c] + b`, a first separator `i` inside `a` leaves the piece `a[..i]` first. */
  lemma SplitBeforeSeparator(a: string, b: string, c: char, i: nat)
    requires i < |a| && a[i] == c && c !in a[..i]
    ensures Split(a + [c] + b, c) == (if i == 0 then [] else [a[..i]]) + Split(a[i + 1..] + [c] + b, c)
  {
    var s := a + [c] + b;
    assert s[..i] == a[..i];
    assert s[i] == c;
    assert s[i + 1..] == a[i + 1..] + [c] + b;
    SplitAtSeparator(s, c, i);
  }

  lemma JoinAfterHead(whole: seq<string>, left: seq<string>, rest: seq<string>,
                      head: seq<string>, x: seq<string>, y: seq<string>)
    requires whole == head + rest && left == head + x && rest == x + y
    ensures whole == left + y
  {
  }

  /** The step of `SplitAppend` at the first separator `i` of `a`, given the claim for the rest of `a`. */
  lemma SplitAppendStep(a: string, b: string, c: char, i: nat)
    requires i < |a| && a[i] == c && c !in a[..i]
    requires Split(a[i + 1..] + [c] + b, c) == Split(a[i + 1..], c) + Split(b, c)
    ensures Split(a + [c] + b, c) == Split(a, c) + Split(b, c)
  {
    var head: seq<string> := if i == 0 then [] else [a[..i]];
    SplitBeforeSeparator(a, b, c, i);
    SplitAtSeparator(a, c, i);
    JoinAfterHead(Split(a + [c] + b, c), Split(a, c), Split(a[i + 1..] + [c] + b, c),
                  head, Split(a[i + 1..], c), Split(b, c));
  }

  /** Splitting at one separator splits each side on its own; with `SplitWithoutSeparator` this determines `Split`. */
  lemma {:induction false} SplitAppend(a: string, b: string, c: char)
    decreases |a|
    ensures Split(a + [c] + b, c) == Split(a, c) + Split(b, c)
  {
    if c in a {
      var i := FirstSeparator(a, c);
      SplitAppend(a[i + 1..], b, c);
      SplitAppendStep(a, b, c, i);
    } else {
      SplitAppendPlain(a, b, c);
    }
  }
}
