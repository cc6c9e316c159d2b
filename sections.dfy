/**
 * The section split of the reply: `text.split(/\[\[SEÇÃO \d\]\]/)`. A marker is the
 * eleven characters `[[SEÇÃO `, one ASCII digit and `]]`; the digit is not looked at.
 */
module Sections {

  const MarkerHead := "[[SE\U{00C7}\U{00C3}O "
  const MarkerTail := "]]"
  const MarkerLength := 11

  /** The regex `\d` without the `u` flag: ASCII digits only. */
  predicate IsAsciiDigit(c: char) {
    '0' <= c <= '9'
  }

  /** `m` is one whole match of the marker regex. */
  predicate IsMarker(m: string) {
    |m| == MarkerLength && m[..8] == MarkerHead && IsAsciiDigit(m[8]) && m[9..] == MarkerTail
  }

  /** The marker that carries digit `d`, as the system instruction writes it. */
  function Marker(d: char): (m: string)
    requires IsAsciiDigit(d)
    ensures IsMarker(m) && m[8] == d
  {
    MarkerHead + [d] + MarkerTail
  }

  predicate MarkerAt(s: string, p: int) {
    0 <= p && p + MarkerLength <= |s| && IsMarker(s[p..p + MarkerLength])
  }

  predicate HasMarker(s: string) {
    exists p :: 0 <= p <= |s| && MarkerAt(s, p)
  }

  /** Every marker starts with `[`, so a text without one has no marker. */
  lemma NoBracketNoMarker(s: string)
    requires '[' !in s
    ensures !HasMarker(s)
  {
    forall p | 0 <= p <= |s|
      ensures !MarkerAt(s, p)
    {
      if p + MarkerLength <= |s| {
        assert s[p..p + MarkerLength][0] == s[p];
      }
    }
  }

  /**
   * The fragments between markers, found left to right. The first fragment is a prefix of the
   * text; there is always at least one fragment.
   */
  function SplitSections(s: string): (r: seq<string>)
    ensures |r| >= 1
    ensures |r[0]| <= |s| && r[0] == s[..|r[0]|]
    decreases |s|
  {
    if |s| == 0 then [""]
    else if MarkerAt(s, 0) then [""] + SplitSections(s[MarkerLength..])
    else
      var rest := SplitSections(s[1..]);
      [[s[0]] + rest[0]] + rest[1..]
  }

  /** The digits of the markers that SplitSections cut at, in order. */
  ghost function MarkerDigits(s: string): (ds: seq<char>)
    ensures forall i :: 0 <= i < |ds| ==> IsAsciiDigit(ds[i])
    decreases |s|
  {
    if |s| == 0 then []
    else if MarkerAt(s, 0) then [s[8]] + MarkerDigits(s[MarkerLength..])
    else MarkerDigits(s[1..])
  }

  /** Fragments glued back together with the markers between them. */
  function Rejoin(frags: seq<string>, ds: seq<char>): string
    requires |frags| == |ds| + 1
    requires forall i :: 0 <= i < |ds| ==> IsAsciiDigit(ds[i])
  {
    if |ds| == 0 then frags[0]
    else frags[0] + Marker(ds[0]) + Rejoin(frags[1..], ds[1..])
  }

  lemma RejoinCons(c: char, frags: seq<string>, ds: seq<char>)
    requires |frags| == |ds| + 1
    requires forall i :: 0 <= i < |ds| ==> IsAsciiDigit(ds[i])
    ensures Rejoin([[c] + frags[0]] + frags[1..], ds) == [c] + Rejoin(frags, ds)
  {
    var g := [[c] + frags[0]] + frags[1..];
    assert g[1..] == frags[1..];
  }

  /** Splitting loses nothing but the markers: gluing the fragments back gives the text. */
  lemma {:induction false} SplitRejoin(s: string)
    ensures |SplitSections(s)| == |MarkerDigits(s)| + 1
    ensures Rejoin(SplitSections(s), MarkerDigits(s)) == s
    decreases |s|
  {
    if |s| == 0 {
    } else if MarkerAt(s, 0) {
      var tail := s[MarkerLength..];
      SplitRejoin(tail);
      assert s[..MarkerLength] == Marker(s[8]);
      assert s == s[..MarkerLength] + tail;
      assert SplitSections(s) == [""] + SplitSections(tail);
      assert MarkerDigits(s) == [s[8]] + MarkerDigits(tail);
      assert ([""] + SplitSections(tail))[1..] == SplitSections(tail);
    } else {
      SplitRejoin(s[1..]);
      RejoinCons(s[0], SplitSections(s[1..]), MarkerDigits(s[1..]));
      assert s == [s[0]] + s[1..];
    }
  }

  lemma MarkerShift(c: char, t: string, p: int)
    requires 0 <= p
    ensures MarkerAt([c] + t, p + 1) <==> MarkerAt(t, p)
  {
    if p + MarkerLength <= |t| {
      assert ([c] + t)[p + 1..p + 1 + MarkerLength] == t[p..p + MarkerLength];
    }
  }

  /** No fragment contains a marker. */
  lemma {:induction false} SplitMarkerFree(s: string)
    ensures forall i :: 0 <= i < |SplitSections(s)| ==> !HasMarker(SplitSections(s)[i])
    decreases |s|
  {
    var r := SplitSections(s);
    if |s| == 0 {
      assert !MarkerAt("", 0);
    } else if MarkerAt(s, 0) {
      SplitMarkerFree(s[MarkerLength..]);
      assert !HasMarker("") by { assert forall p :: !MarkerAt("", p); }
      assert forall i :: 1 <= i < |r| ==> r[i] == SplitSections(s[MarkerLength..])[i - 1];
    } else {
      var rest := SplitSections(s[1..]);
      SplitMarkerFree(s[1..]);
      assert forall i :: 1 <= i < |r| ==> r[i] == rest[i];
      var f := [s[0]] + rest[0];
      assert !HasMarker(f) by {
        forall p | 0 <= p <= |f| && MarkerAt(f, p) ensures false {
          if p > 0 {
            MarkerShift(s[0], rest[0], p - 1);
          }
        }
      }
    }
  }

  /** A marker cannot begin inside a marker-free text and run on into a following marker. */
  lemma NoStraddle(a: string, m: string, rest: string, p: int)
    requires IsMarker(m)
    requires 0 <= p < |a| < p + MarkerLength
    ensures !MarkerAt(a + m + rest, p)
  {
    var s := a + m + rest;
    if p + MarkerLength <= |s| {
      var w := s[p..p + MarkerLength];
      var j := |a| - p;
      assert w[j] == m[0] == '[';
      if j == 1 {
        assert w[2] == m[1] == '[';
        assert w[..8][2] != MarkerHead[2];
      } else if j < 8 {
        assert w[..8][j] != MarkerHead[j];
      } else if j == 8 {
        assert !IsAsciiDigit(w[8]);
      } else {
        assert w[9..][j - 9] != MarkerTail[j - 9];
      }
    }
  }

  /**
   * The first fragment is the text before the first marker: a marker-free prefix that is the
   * whole text when there is a single fragment, and that a marker follows otherwise.
   */
  lemma FirstFragment(s: string)
    ensures var r := SplitSections(s);
            r[0] == s[..|r[0]|] && !HasMarker(r[0])
            && (|r| == 1 ==> r[0] == s)
            && (|r| > 1 ==> MarkerAt(s, |r[0]|))
  {
    var r := SplitSections(s);
    SplitMarkerFree(s);
    SplitRejoin(s);
    if |r| > 1 {
      var ds := MarkerDigits(s);
      var tail := Rejoin(r[1..], ds[1..]);
      assert s == r[0] + Marker(ds[0]) + tail;
      assert s[|r[0]|..|r[0]| + MarkerLength] == Marker(ds[0]);
    }
  }

  /** A marker-free fragment followed by a marker comes out as one whole fragment. */
  lemma {:induction false} SplitAfterFree(a: string, d: char, rest: string)
    requires IsAsciiDigit(d)
    requires !HasMarker(a)
    ensures SplitSections(a + Marker(d) + rest) == [a] + SplitSections(rest)
    decreases |a|
  {
    var m := Marker(d);
    var s := a + m + rest;
    if |a| == 0 {
      assert s == m + rest;
      assert s[..MarkerLength] == m;
      assert s[MarkerLength..] == rest;
    } else {
      assert !MarkerAt(s, 0) by {
        if |a| >= MarkerLength {
          assert s[..MarkerLength] == a[..MarkerLength];
          assert !MarkerAt(a, 0);
        } else {
          NoStraddle(a, m, rest, 0);
        }
      }
      assert !HasMarker(a[1..]) by {
        forall p | 0 <= p <= |a[1..]| && MarkerAt(a[1..], p) ensures false {
          assert a == [a[0]] + a[1..];
          MarkerShift(a[0], a[1..], p);
        }
      }
      assert s[1..] == a[1..] + m + rest;
      SplitAfterFree(a[1..], d, rest);
      assert a == [a[0]] + a[1..];
    }
  }

  /** A marker-free text is a single fragment. */
  lemma {:induction false} SplitOfFree(t: string)
    requires !HasMarker(t)
    ensures SplitSections(t) == [t]
    decreases |t|
  {
    if |t| > 0 {
      assert !MarkerAt(t, 0);
      assert !HasMarker(t[1..]) by {
        forall p | 0 <= p <= |t[1..]| && MarkerAt(t[1..], p) ensures false {
          assert t == [t[0]] + t[1..];
          MarkerShift(t[0], t[1..], p);
        }
      }
      SplitOfFree(t[1..]);
      assert t == [t[0]] + t[1..];
    }
  }

  /** Conversely, gluing marker-free fragments with any markers and splitting gives them back. */
  lemma {:induction false} RejoinSplit(frags: seq<string>, ds: seq<char>)
    requires |frags| == |ds| + 1
    requires forall i :: 0 <= i < |ds| ==> IsAsciiDigit(ds[i])
    requires forall i :: 0 <= i < |frags| ==> !HasMarker(frags[i])
    ensures SplitSections(Rejoin(frags, ds)) == frags
  {
    if |ds| == 0 {
      SplitOfFree(frags[0]);
    } else {
      RejoinSplit(frags[1..], ds[1..]);
      SplitAfterFree(frags[0], ds[0], Rejoin(frags[1..], ds[1..]));
      assert frags == [frags[0]] + frags[1..];
    }
  }
}
