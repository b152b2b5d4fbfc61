/**
 * The two `NSRegularExpression` searches of the extractor, as leftmost-match
 * functions with their matches characterised by predicates:
 *   `<tag>(.*?)</tag>`              (lazy; `.` stops at a line terminator)
 *   `<data>([A-Za-z0-9+/=\n\r]+)</data>`
 */
module Patterns {
  import opened Wrappers
  import opened Text

  /**
   * The characters ICU's `.` refuses without the dot-all option. ICU's line
   * terminators are the same set as Foundation's newlines.
   */
  predicate IsLineTerminator(c: char) {
    IsNewline(c)
  }

  /** A match occupies `s[start..end]`. */
  datatype Span = Span(start: nat, end: nat)

  /**
   * From `q`, the lazy `.*?` first reaches `close` at `e`: `close` occurs at
   * `e`, not earlier, and no line terminator lies in between.
   */
  predicate LazyEnd(s: string, close: string, q: int, e: int) {
    0 <= q <= e && At(s, close, e)
    && (forall m :: q <= m < e ==> !At(s, close, m))
    && (forall m :: q <= m < e ==> !IsLineTerminator(s[m]))
  }

  /** `open(.*?)close` matches `s[b..e]` when started at `b`. */
  predicate ElementAt(s: string, open: string, close: string, b: int, e: int) {
    At(s, open, b) && LazyEnd(s, close, b + |open|, e - |close|)
  }

  function LazyClose(s: string, close: string, q: nat): (r: Option<nat>)
    requires |close| > 0
    decreases |s| - q
    ensures r.Some? ==> LazyEnd(s, close, q, r.value)
    ensures r.None? ==> forall e :: !LazyEnd(s, close, q, e)
  {
    if At(s, close, q) then Some(q)
    else if q >= |s| || IsLineTerminator(s[q]) then None
    else
      var r := LazyClose(s, close, q + 1);
      assert forall e :: LazyEnd(s, close, q, e) ==> LazyEnd(s, close, q + 1, e);
      r
  }

  /** The end of the match of `open(.*?)close` started at `b`, if the attempt there succeeds. */
  function ElementFrom(s: string, open: string, close: string, b: nat): (r: Option<nat>)
    requires |open| > 0 && |close| > 0
    ensures r.Some? ==> b <= r.value <= |s| && ElementAt(s, open, close, b, r.value)
    ensures r.None? ==> forall e :: !ElementAt(s, open, close, b, e)
  {
    if At(s, open, b) then
      match LazyClose(s, close, b + |open|)
      case Some(q) => Some(q + |close|)
      case None => None
    else None
  }

  /**
   * The leftmost match of `open(.*?)close` starting at or after `from`;
   * `FirstElementIsLeftmost` states what it finds.
   */
  function FirstElement(s: string, open: string, close: string, from: nat): (r: Option<Span>)
    requires |open| > 0 && |close| > 0
    decreases |s| - from
    ensures r.Some? ==> from <= r.value.start <= r.value.end <= |s|
  {
    if from >= |s| then None
    else match ElementFrom(s, open, close, from)
      case Some(e) => Some(Span(from, e))
      case None => FirstElement(s, open, close, from + 1)
  }

  /** The search finds a match with none starting earlier, and finds nothing only when no match starts at or after `from`. */
  lemma {:induction false} FirstElementIsLeftmost(s: string, open: string, close: string, from: nat)
    requires |open| > 0 && |close| > 0
    decreases |s| - from
    ensures FirstElement(s, open, close, from).Some? ==>
              var m := FirstElement(s, open, close, from).value;
              ElementAt(s, open, close, m.start, m.end)
              && forall b, e :: from <= b < m.start ==> !ElementAt(s, open, close, b, e)
    ensures FirstElement(s, open, close, from).None? ==>
              forall b, e :: from <= b ==> !ElementAt(s, open, close, b, e)
  {
    if from >= |s| {
      forall b, e | from <= b ensures !ElementAt(s, open, close, b, e) {
        assert !At(s, open, b);
      }
    } else {
      var r := ElementFrom(s, open, close, from);
      if r.None? {
        FirstElementIsLeftmost(s, open, close, from + 1);
        var m := FirstElement(s, open, close, from + 1);
        assert FirstElement(s, open, close, from) == m;
        if m.Some? {
          forall b, e | from <= b < m.value.start ensures !ElementAt(s, open, close, b, e) {
            if b == from { assert r.None?; }
          }
        }
      } else {
        assert FirstElement(s, open, close, from) == Some(Span(from, r.value));
      }
    }
  }

  /** A match at `b` with none starting earlier (from `from`) is the leftmost one. */
  lemma FirstElementIs(s: string, open: string, close: string, from: nat, b: nat, e: int)
    requires |open| > 0 && |close| > 0 && from <= b
    requires ElementAt(s, open, close, b, e)
    requires forall b', e' :: from <= b' < b ==> !ElementAt(s, open, close, b', e')
    ensures FirstElement(s, open, close, from) == Some(Span(b, e))
  {
    var m := FirstElement(s, open, close, from);
    FirstElementIsLeftmost(s, open, close, from);
    assert m.Some? && m.value.start == b;
    LazyEndUnique(s, close, b + |open|, m.value.end - |close|, e - |close|);
  }

  /** What the search finds is a match. */
  lemma FirstElementMatches(s: string, open: string, close: string, from: nat)
    requires |open| > 0 && |close| > 0
    requires FirstElement(s, open, close, from).Some?
    ensures var m := FirstElement(s, open, close, from).value;
            ElementAt(s, open, close, m.start, m.end)
  {
    FirstElementIsLeftmost(s, open, close, from);
  }

  /** A match at or after `from` means the search finds one. */
  lemma FirstElementFinds(s: string, open: string, close: string, from: nat, b: int, e: int)
    requires |open| > 0 && |close| > 0
    requires from <= b && ElementAt(s, open, close, b, e)
    ensures FirstElement(s, open, close, from).Some?
  {
    FirstElementIsLeftmost(s, open, close, from);
  }

  /** From one point, `.*?` reaches at most one end. */
  lemma LazyEndUnique(s: string, close: string, q: int, e1: int, e2: int)
    requires LazyEnd(s, close, q, e1) && LazyEnd(s, close, q, e2)
    ensures e1 == e2
  {
  }

  /** An element's text is its open tag, its content and its close tag. */
  lemma ElementParts(s: string, open: string, close: string, b: int, e: int)
    requires ElementAt(s, open, close, b, e)
    ensures s[b..e] == open + s[b + |open|..e - |close|] + close
  {
    SliceJoin(s, b, b + |open|, e - |close|, e);
  }

  /** The character class of the certificate pattern. */
  predicate IsBase64OrLineBreak(c: char) {
    ('A' <= c <= 'Z') || ('a' <= c <= 'z') || ('0' <= c <= '9')
    || c == '+' || c == '/' || c == '=' || c == '\n' || c == '\r'
  }

  const DataOpen: string := "<data>"
  const DataClose: string := "</data>"

  /** `<data>([A-Za-z0-9+/=\n\r]+)</data>` matches `s[b..e]`. */
  predicate DataElementAt(s: string, b: int, e: int) {
    At(s, DataOpen, b) && b + |DataOpen| < e - |DataClose| && At(s, DataClose, e - |DataClose|)
    && forall m :: b + |DataOpen| <= m < e - |DataClose| ==> IsBase64OrLineBreak(s[m])
  }

  /** Length of the longest run of class characters at `q`. */
  function RunLength(s: string, q: nat): (n: nat)
    requires q <= |s|
    decreases |s| - q
    ensures q + n <= |s|
    ensures forall m :: q <= m < q + n ==> IsBase64OrLineBreak(s[m])
    ensures q + n < |s| ==> !IsBase64OrLineBreak(s[q + n])
  {
    if q == |s| || !IsBase64OrLineBreak(s[q]) then 0 else 1 + RunLength(s, q + 1)
  }

  /**
   * A start admits exactly one match, ending right after the longest run
   * of class characters; so greedy and lazy repetition agree.
   */
  lemma DataElementEnd(s: string, b: int, e: int)
    requires DataElementAt(s, b, e)
    ensures e == b + |DataOpen| + RunLength(s, b + |DataOpen|) + |DataClose|
  {
    AtHead(s, DataClose, e - |DataClose|);
  }

  /** The end of the certificate match started at `b`, if the attempt there succeeds. */
  function DataElementFrom(s: string, b: nat): (r: Option<nat>)
    ensures r.Some? ==> b <= r.value <= |s| && DataElementAt(s, b, r.value)
    ensures r.None? ==> forall e :: !DataElementAt(s, b, e)
  {
    if b + |DataOpen| <= |s| && At(s, DataOpen, b) then
      var n := RunLength(s, b + |DataOpen|);
      if n > 0 && At(s, DataClose, b + |DataOpen| + n) then Some(b + |DataOpen| + n + |DataClose|)
      else
        assert forall e :: !DataElementAt(s, b, e) by {
          forall e | DataElementAt(s, b, e) ensures false { DataElementEnd(s, b, e); }
        }
        None
    else None
  }

  /**
   * The leftmost certificate match starting at or after `from`;
   * `FirstDataElementIsLeftmost` states what it finds.
   */
  function FirstDataElement(s: string, from: nat): (r: Option<Span>)
    decreases |s| - from
    ensures r.Some? ==> from <= r.value.start <= r.value.end <= |s|
  {
    if from >= |s| then None
    else match DataElementFrom(s, from)
      case Some(e) => Some(Span(from, e))
      case None => FirstDataElement(s, from + 1)
  }

  /** The search finds the leftmost certificate match, and finds nothing only when there is none at or after `from`. */
  lemma {:induction false} FirstDataElementIsLeftmost(s: string, from: nat)
    decreases |s| - from
    ensures FirstDataElement(s, from).Some? ==>
              var m := FirstDataElement(s, from).value;
              DataElementAt(s, m.start, m.end)
              && forall b, e :: from <= b < m.start ==> !DataElementAt(s, b, e)
    ensures FirstDataElement(s, from).None? ==>
              forall b, e :: from <= b ==> !DataElementAt(s, b, e)
  {
    if from >= |s| {
      forall b, e | from <= b ensures !DataElementAt(s, b, e) {
        assert !At(s, DataOpen, b);
      }
    } else {
      var r := DataElementFrom(s, from);
      if r.None? {
        FirstDataElementIsLeftmost(s, from + 1);
        var m := FirstDataElement(s, from + 1);
        assert FirstDataElement(s, from) == m;
        if m.Some? {
          forall b, e | from <= b < m.value.start ensures !DataElementAt(s, b, e) {
            if b == from { assert r.None?; }
          }
        }
      } else {
        assert FirstDataElement(s, from) == Some(Span(from, r.value));
      }
    }
  }

  /** A certificate match at `b` with none starting earlier is the leftmost one. */
  lemma FirstDataElementIs(s: string, b: nat, e: int)
    requires DataElementAt(s, b, e)
    requires forall b', e' :: 0 <= b' < b ==> !DataElementAt(s, b', e')
    ensures FirstDataElement(s, 0) == Some(Span(b, e))
  {
    var m := FirstDataElement(s, 0);
    FirstDataElementIsLeftmost(s, 0);
    assert m.Some? && m.value.start == b;
    DataElementEndUnique(s, b, m.value.end, e);
  }

  /** A certificate match started at `b` has only one end. */
  lemma DataElementEndUnique(s: string, b: int, e1: int, e2: int)
    requires DataElementAt(s, b, e1) && DataElementAt(s, b, e2)
    ensures e1 == e2
  {
    DataElementEnd(s, b, e1);
    DataElementEnd(s, b, e2);
  }
}
