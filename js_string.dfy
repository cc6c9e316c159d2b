/**
 * The JavaScript string built-ins the service relies on: `trim` and the regex class `\s`,
 * `split` on a one-character separator, `join`, `indexOf`, `lastIndexOf`, `substring`, and
 * `replace` with a global literal pattern. Dafny characters stand for UTF-16 code units; none
 * of the characters these functions test lies outside the Basic Multilingual Plane.
 */
module JsString {

  /** ECMAScript WhiteSpace and LineTerminator: what `trim` removes and what `\s` matches. */
  predicate IsJsSpace(c: char) {
    c == '\t' || c == '\n' || c == '\U{000B}' || c == '\U{000C}' || c == '\r' || c == ' '
    || c == '\U{00A0}' || c == '\U{1680}' || ('\U{2000}' <= c <= '\U{200A}')
    || c == '\U{2028}' || c == '\U{2029}' || c == '\U{202F}' || c == '\U{205F}'
    || c == '\U{3000}' || c == '\U{FEFF}'
  }

  /** Every character of `s` is whitespace. */
  predicate AllSpace(s: string)
    decreases |s|
  {
    |s| == 0 || (IsJsSpace(s[0]) && AllSpace(s[1..]))
  }

  lemma {:induction false} AllSpaceAt(s: string, k: int)
    requires AllSpace(s) && 0 <= k < |s|
    ensures IsJsSpace(s[k])
    decreases |s|
  {
    if k > 0 {
      AllSpaceAt(s[1..], k - 1);
    }
  }

  lemma {:induction false} AllSpaceConcat(a: string, b: string)
    ensures AllSpace(a + b) <==> AllSpace(a) && AllSpace(b)
    decreases |a|
  {
    if |a| > 0 {
      assert (a + b)[1..] == a[1..] + b;
      AllSpaceConcat(a[1..], b);
    } else {
      assert a + b == b;
    }
  }

  /** The leading run of whitespace removed. */
  function TrimStart(s: string): (r: string)
    ensures |r| <= |s|
  {
    if |s| > 0 && IsJsSpace(s[0]) then TrimStart(s[1..]) else s
  }

  /** TrimStart keeps the suffix that starts at the first non-space. */
  lemma {:induction false} TrimStartSpec(s: string)
    ensures var r := TrimStart(s);
            r == s[|s| - |r|..] && AllSpace(s[..|s| - |r|]) && (r == [] || !IsJsSpace(r[0]))
  {
    if |s| > 0 && IsJsSpace(s[0]) {
      TrimStartSpec(s[1..]);
      var r := TrimStart(s[1..]);
      assert s[..|s| - |r|][1..] == s[1..][..|s| - 1 - |r|];
      assert s[|s| - |r|..] == s[1..][|s| - 1 - |r|..];
    }
  }

  /** The trailing run of whitespace removed. */
  function TrimEnd(s: string): (r: string)
    ensures |r| <= |s|
  {
    if |s| > 0 && IsJsSpace(s[|s| - 1]) then TrimEnd(s[..|s| - 1]) else s
  }

  /** TrimEnd keeps the prefix that ends at the last non-space. */
  lemma {:induction false} TrimEndSpec(s: string)
    ensures var r := TrimEnd(s);
            r == s[..|r|] && AllSpace(s[|r|..]) && (r == [] || !IsJsSpace(r[|r| - 1]))
  {
    if |s| > 0 && IsJsSpace(s[|s| - 1]) {
      var p := s[..|s| - 1];
      TrimEndSpec(p);
      var r := TrimEnd(p);
      assert s[|r|..] == p[|r|..] + [s[|s| - 1]];
      assert AllSpace([s[|s| - 1]]) by { assert [s[|s| - 1]][1..] == []; }
      AllSpaceConcat(p[|r|..], [s[|s| - 1]]);
      assert s[..|r|] == p[..|r|];
    } else {
      assert s[|s|..] == [];
    }
  }

  /** How many whitespace characters `trim` removes from the front of `s`. */
  function LeadingSpace(s: string): nat {
    |s| - |TrimStart(s)|
  }

  /** `String.prototype.trim`. */
  function Trim(s: string): (r: string)
    ensures |r| <= |s|
  {
    TrimEnd(TrimStart(s))
  }

  /** The result of `trim` is framed in `s` by two whitespace runs and neither of its ends is whitespace. */
  lemma TrimSpec(s: string)
    ensures var i, r := LeadingSpace(s), Trim(s);
            i + |r| <= |s| && r == s[i..i + |r|] && AllSpace(s[..i]) && AllSpace(s[i + |r|..])
            && (r == [] || (!IsJsSpace(r[0]) && !IsJsSpace(r[|r| - 1])))
            && (i == |s| || !IsJsSpace(s[i]))
  {
    var t := TrimStart(s);
    TrimStartSpec(s);
    TrimEndSpec(t);
    var r := TrimEnd(t);
    var i := |s| - |t|;
    assert s[i..] == t;
    assert s[i + |r|..] == t[|r|..];
    assert s[i..i + |r|] == t[..|r|];
    if r != [] {
      assert r[0] == t[0];
    }
  }

  /** Regroupings of four concatenated strings. */
  lemma ConcatAssoc(a: string, b: string, c: string, d: string)
    ensures a + (b + c + d) == (a + b) + c + d
  {
  }

  lemma ConcatAssocEnd(a: string, b: string, c: string, d: string)
    ensures (a + b + c) + d == a + b + (c + d)
  {
  }

  lemma ConcatAssocStart(a: string, b: string, c: string, d: string)
    ensures a + b + c + d == a + (b + (c + d))
  {
  }

  /** A string is its trimmed text framed by the whitespace trimming removed. */
  lemma TrimParts(s: string) returns (lead: string, trail: string)
    ensures s == lead + Trim(s) + trail && AllSpace(lead) && AllSpace(trail)
    ensures Trim(s) == [] || (!IsJsSpace(Trim(s)[0]) && !IsJsSpace(Trim(s)[|Trim(s)| - 1]))
  {
    var i, r := LeadingSpace(s), Trim(s);
    TrimSpec(s);
    lead, trail := s[..i], s[i + |r|..];
    assert s == s[..i] + s[i..i + |r|] + s[i + |r|..];
  }

  lemma {:induction false} TrimStartOfSpaced(w: string, t: string)
    requires AllSpace(w)
    requires t == [] || !IsJsSpace(t[0])
    ensures TrimStart(w + t) == t
  {
    if w != [] {
      assert (w + t)[1..] == w[1..] + t;
      TrimStartOfSpaced(w[1..], t);
    }
  }

  lemma {:induction false} TrimEndOfSpaced(t: string, w: string)
    requires AllSpace(w)
    requires t == [] || !IsJsSpace(t[|t| - 1])
    ensures TrimEnd(t + w) == t
  {
    if w != [] {
      var n := |w| - 1;
      assert w == w[..n] + [w[n]];
      AllSpaceConcat(w[..n], [w[n]]);
      AllSpaceAt(w, n);
      assert (t + w)[..|t + w| - 1] == t + w[..n];
      TrimEndOfSpaced(t, w[..n]);
    }
  }

  lemma TrimOfSpace(w: string)
    requires AllSpace(w)
    ensures Trim(w) == []
  {
    assert w + [] == w;
    TrimStartOfSpaced(w, []);
  }

  lemma TrimOfFramedWord(a: string, r: string, b: string)
    requires AllSpace(a) && AllSpace(b)
    requires r != [] && !IsJsSpace(r[0]) && !IsJsSpace(r[|r| - 1])
    ensures Trim(a + r + b) == r
  {
    var s := a + r + b;
    assert s == a + (r + b);
    TrimStartOfSpaced(a, r + b);
    assert TrimStart(s) == r + b;
    TrimEndOfSpaced(r, b);
    assert TrimEnd(r + b) == r;
  }

  /** Any framing of `r` between two whitespace runs trims to `r`: the contract of Trim fixes its result. */
  lemma TrimOfFramed(a: string, r: string, b: string)
    requires AllSpace(a) && AllSpace(b)
    requires r == [] || (!IsJsSpace(r[0]) && !IsJsSpace(r[|r| - 1]))
    ensures Trim(a + r + b) == r
  {
    if r == [] {
      var s := a + b;
      AllSpaceConcat(a, b);
      TrimOfSpace(s);
      assert Trim(s) == [];
      assert a + r + b == s;
    } else {
      TrimOfFramedWord(a, r, b);
    }
  }

  lemma TrimIdempotent(s: string)
    ensures Trim(Trim(s)) == Trim(s)
  {
    var r := Trim(s);
    TrimSpec(s);
    TrimOfFramed([], r, []);
    assert [] + r + [] == r;
  }

  /** Trimming never removes a character that is not whitespace. */
  lemma TrimKeeps(s: string, c: char)
    requires !IsJsSpace(c)
    ensures c in Trim(s) <==> c in s
  {
    var r := Trim(s);
    var i := LeadingSpace(s);
    TrimSpec(s);
    if c in s {
      var k :| 0 <= k < |s| && s[k] == c;
      if k < i {
        AllSpaceAt(s[..i], k);
      } else if k >= i + |r| {
        AllSpaceAt(s[i + |r|..], k - i - |r|);
      } else {
        assert r[k - i] == c;
      }
    }
  }

  /** `s.split(sep)` for a one-character string separator. */
  function Split(s: string, sep: char): (r: seq<string>)
    ensures |r| >= 1
    ensures forall i :: 0 <= i < |r| ==> sep !in r[i]
  {
    if |s| == 0 then [""]
    else if s[0] == sep then [""] + Split(s[1..], sep)
    else
      var rest := Split(s[1..], sep);
      var r := [[s[0]] + rest[0]] + rest[1..];
      assert forall i :: 1 <= i < |r| ==> r[i] == rest[i];
      r
  }

  /** `parts.join(sep)`; an empty array joins to the empty string. */
  function Join(parts: seq<string>, sep: string): string {
    if |parts| == 0 then ""
    else if |parts| == 1 then parts[0]
    else parts[0] + sep + Join(parts[1..], sep)
  }

  /** Joining undoes splitting: the parts with the separator between them are the text. */
  lemma {:induction false} JoinSplit(s: string, sep: char)
    ensures Join(Split(s, sep), [sep]) == s
  {
    if |s| > 0 {
      JoinSplit(s[1..], sep);
      var rest := Split(s[1..], sep);
      if s[0] == sep {
        assert ([""] + rest)[1..] == rest;
      } else {
        var r := [[s[0]] + rest[0]] + rest[1..];
        assert r[1..] == rest[1..];
        if |rest| > 1 {
          assert Join(rest, [sep]) == rest[0] + [sep] + Join(rest[1..], [sep]);
        }
      }
      assert s == [s[0]] + s[1..];
    }
  }

  /** Splitting undoes joining, whenever no part contains the separator. */
  lemma {:induction false} SplitJoin(parts: seq<string>, sep: char)
    requires |parts| >= 1
    requires forall i :: 0 <= i < |parts| ==> sep !in parts[i]
    ensures Split(Join(parts, [sep]), sep) == parts
  {
    if |parts| == 1 {
      SplitOfPlain(parts[0], sep);
    } else {
      SplitJoin(parts[1..], sep);
      SplitAfterPlain(parts[0], sep, Join(parts[1..], [sep]));
      assert Join(parts, [sep]) == parts[0] + [sep] + Join(parts[1..], [sep]);
      assert parts == [parts[0]] + parts[1..];
    }
  }

  /** The parts of `a + b` when `p` and `q` are the parts of `a` and of `b`. */
  function Glue(p: seq<string>, q: seq<string>): seq<string>
    requires |p| >= 1 && |q| >= 1
  {
    p[..|p| - 1] + [p[|p| - 1] + q[0]] + q[1..]
  }

  lemma GlueAfterEmpty(p: seq<string>, q: seq<string>)
    requires |p| >= 1 && |q| >= 1
    ensures Glue([""] + p, q) == [""] + Glue(p, q)
  {
    var p2 := [""] + p;
    assert p2[..|p2| - 1] == [""] + p[..|p| - 1];
  }

  lemma GlueGrowFirst(c: char, p: seq<string>, q: seq<string>)
    requires |p| >= 1 && |q| >= 1
    ensures var g := Glue(p, q); Glue([[c] + p[0]] + p[1..], q) == [[c] + g[0]] + g[1..]
  {
    var p2 := [[c] + p[0]] + p[1..];
    var g := Glue(p, q);
    if |p| == 1 {
      assert g == [p[0] + q[0]] + q[1..];
      assert [c] + g[0] == ([c] + p[0]) + q[0];
      assert p2[..|p2| - 1] == [];
    } else {
      assert p2[..|p2| - 1] == [[c] + p[0]] + p[1..|p| - 1];
      assert p[..|p| - 1] == [p[0]] + p[1..|p| - 1];
      assert g[1..] == p[1..|p| - 1] + [p[|p| - 1] + q[0]] + q[1..];
    }
  }

  /** Splitting a concatenation: the last part of `a` and the first part of `b` grow together. */
  lemma {:induction false} SplitConcat(a: string, b: string, sep: char)
    ensures Split(a + b, sep) == Glue(Split(a, sep), Split(b, sep))
  {
    var q := Split(b, sep);
    if |a| == 0 {
      assert a + b == b;
      assert [""][..0] == [];
      assert "" + q[0] == q[0];
      assert q == [q[0]] + q[1..];
      assert Glue([""], q) == q;
    } else {
      assert (a + b)[1..] == a[1..] + b;
      SplitConcat(a[1..], b, sep);
      if a[0] == sep {
        GlueAfterEmpty(Split(a[1..], sep), q);
      } else {
        GlueGrowFirst(a[0], Split(a[1..], sep), q);
      }
    }
  }

  lemma {:induction false} SplitOfPlain(s: string, sep: char)
    requires sep !in s
    ensures Split(s, sep) == [s]
  {
    if |s| > 0 {
      SplitOfPlain(s[1..], sep);
      assert s == [s[0]] + s[1..];
    }
  }

  lemma {:induction false} SplitAfterPlain(a: string, sep: char, rest: string)
    requires sep !in a
    ensures Split(a + [sep] + rest, sep) == [a] + Split(rest, sep)
  {
    var s := a + [sep] + rest;
    if |a| == 0 {
      assert s[1..] == rest;
    } else {
      assert s[1..] == a[1..] + [sep] + rest;
      SplitAfterPlain(a[1..], sep, rest);
      assert a == [a[0]] + a[1..];
    }
  }

  /** `s.indexOf(c)`: the first position of `c`, or -1. */
  function IndexOf(s: string, c: char): (r: int)
    ensures r == -1 <==> c !in s
    ensures r != -1 ==> 0 <= r < |s| && s[r] == c && c !in s[..r]
  {
    if |s| == 0 then -1
    else if s[0] == c then 0
    else
      var k := IndexOf(s[1..], c);
      if k == -1 then -1
      else
        assert s[..k + 1] == [s[0]] + s[1..][..k];
        k + 1
  }

  /** `s.lastIndexOf(c)`: the last position of `c`, or -1. */
  function LastIndexOf(s: string, c: char): (r: int)
    ensures r == -1 <==> c !in s
    ensures r != -1 ==> 0 <= r < |s| && s[r] == c && c !in s[r + 1..]
  {
    if |s| == 0 then -1
    else if s[|s| - 1] == c then |s| - 1
    else
      var k := LastIndexOf(s[..|s| - 1], c);
      assert k != -1 ==> s[k + 1..] == s[..|s| - 1][k + 1..] + [s[|s| - 1]];
      assert k == -1 ==> s == s[..|s| - 1] + [s[|s| - 1]];
      k
  }

  function Clamp(x: int, n: nat): (r: nat)
    ensures r <= n
    ensures 0 <= x <= n ==> r == x
  {
    if x < 0 then 0 else if x > n then n else x
  }

  /** `s.substring(a, b)`: both ends clamped to the string, and swapped when `a > b`. */
  function Substring(s: string, a: int, b: int): (r: string)
    ensures 0 <= a <= b <= |s| ==> r == s[a..b]
    ensures 0 <= b <= a <= |s| ==> r == s[b..a]
  {
    var x, y := Clamp(a, |s|), Clamp(b, |s|);
    if x <= y then s[x..y] else s[y..x]
  }

  /** `pat` occurs in `s` at position `i`. */
  predicate MatchAt(s: string, pat: string, i: int) {
    0 <= i && i + |pat| <= |s| && s[i..i + |pat|] == pat
  }

  predicate Occurs(s: string, pat: string) {
    exists i :: 0 <= i <= |s| && MatchAt(s, pat, i)
  }

  /**
   * `s.replace(/pat/g, rep)` for a literal pattern: the matches are found left to right, do not
   * overlap, and the replacement text is not searched again.
   */
  function ReplaceAll(s: string, pat: string, rep: string): (r: string)
    requires |pat| > 0
    decreases |s|
  {
    if |pat| <= |s| && s[..|pat|] == pat then rep + ReplaceAll(s[|pat|..], pat, rep)
    else if |s| == 0 then ""
    else [s[0]] + ReplaceAll(s[1..], pat, rep)
  }

  /** A character that is in neither the pattern nor the replacement is in the result exactly when it is in `s`. */
  lemma {:induction false} ReplaceAllKeeps(s: string, pat: string, rep: string, c: char)
    requires |pat| > 0
    requires c !in pat && c !in rep
    ensures c in ReplaceAll(s, pat, rep) <==> c in s
    decreases |s|
  {
    if |pat| <= |s| && s[..|pat|] == pat {
      ReplaceAllKeeps(s[|pat|..], pat, rep, c);
      assert s == pat + s[|pat|..];
    } else if |s| > 0 {
      ReplaceAllKeeps(s[1..], pat, rep, c);
      assert s == [s[0]] + s[1..];
    }
  }

  /** A pattern whose first character is absent does not occur. */
  lemma FirstAbsent(s: string, pat: string)
    requires |pat| > 0 && pat[0] !in s
    ensures !Occurs(s, pat)
  {
  }

  /** Without a match, replacing changes nothing. */
  lemma {:induction false} ReplaceAllAbsent(s: string, pat: string, rep: string)
    requires |pat| > 0
    requires !Occurs(s, pat)
    ensures ReplaceAll(s, pat, rep) == s
  {
    if |s| > 0 {
      assert !MatchAt(s, pat, 0);
      assert !Occurs(s[1..], pat) by {
        forall i | MatchAt(s[1..], pat, i) ensures false {
          assert s[i + 1..i + 1 + |pat|] == s[1..][i..i + |pat|];
          assert MatchAt(s, pat, i + 1);
        }
      }
      ReplaceAllAbsent(s[1..], pat, rep);
      assert s == [s[0]] + s[1..];
    }
  }

  /** With a one-character pattern, replacing acts character by character. */
  lemma {:induction false} ReplaceAllChar(s: string, from: char, to: char)
    ensures var r := ReplaceAll(s, [from], [to]);
            |r| == |s| && forall i :: 0 <= i < |s| ==> r[i] == (if s[i] == from then to else s[i])
  {
    if |s| > 0 {
      ReplaceAllChar(s[1..], from, to);
    }
  }
}
