/**
 * Section 2 of the reply: the negotiation script lines. The section is trimmed, split on
 * `\n`, every line trimmed, blank lines dropped, and each remaining line cleaned of one
 * leading bullet or quote (with the whitespace after it) and one closing quote.
 */
module Scripts {

  import opened JsString

  /** The class `[-*•"']` of the leading-decoration regex. */
  const Bullets: set<char> := {'-', '*', '\U{2022}', '"', '\''}

  /** The class `["']` of the closing-quote regex. */
  const Quotes: set<char> := {'"', '\''}

  /** `.replace(/^[-*•"']\s*\/, '')` */
  function StripBullet(s: string): string {
    if |s| > 0 && s[0] in Bullets then TrimStart(s[1..]) else s
  }

  /** `.replace(/["']$/, '')` */
  function StripClosingQuote(s: string): string {
    if |s| > 0 && s[|s| - 1] in Quotes then s[..|s| - 1] else s
  }

  /** Position `i` is where the leading decoration of `s` ends: one bullet and every space after it. */
  predicate LeadEndsAt(s: string, i: int)
    requires 0 <= i <= |s|
  {
    if |s| > 0 && s[0] in Bullets then 1 <= i && AllSpace(s[1..i]) && (i == |s| || !IsJsSpace(s[i]))
    else i == 0
  }

  /** Position `j` is where the kept text ends: before one closing quote, if what is left ends in one. */
  predicate TailStartsAt(s: string, i: int, j: int)
    requires 0 <= i <= |s|
  {
    if i < |s| && s[|s| - 1] in Quotes then j == |s| - 1 else j == |s|
  }

  /** The cleanup of one script line: it keeps the text between the decorations and removes nothing else. */
  function CleanLine(s: string): (r: string)
    ensures exists i, j :: 0 <= i <= j <= |s| && LeadEndsAt(s, i) && TailStartsAt(s, i, j) && r == s[i..j]
  {
    var b := StripBullet(s);
    var i := |s| - |b|;
    assert b == s[i..] && (|s| > 0 && s[0] in Bullets ==> AllSpace(s[1..][..i - 1]) && (i == |s| || !IsJsSpace(s[i]))) by {
      if |s| > 0 && s[0] in Bullets {
        TrimStartSpec(s[1..]);
      }
    }
    var r := StripClosingQuote(b);
    var j := i + |r|;
    assert r == s[i..j];
    assert |s| > 0 && s[0] in Bullets ==> s[1..i] == s[1..][..i - 1];
    assert LeadEndsAt(s, i);
    r
  }

  /** Lines trimmed and the empty ones dropped: `.map(s => s.trim()).filter(s => s.length > 0)`. */
  function NonBlank(lines: seq<string>): (r: seq<string>)
    ensures |r| <= |lines|
  {
    if lines == [] then []
    else
      var t := Trim(lines[0]);
      (if t == "" then [] else [t]) + NonBlank(lines[1..])
  }

  function NonBlankLines(text: string): seq<string> {
    NonBlank(Split(text, '\n'))
  }

  /** `result.salesScripts` for the section text `section`. */
  function ScriptLines(section: string): seq<string> {
    var lines := NonBlankLines(Trim(section));
    seq(|lines|, k requires 0 <= k < |lines| => CleanLine(lines[k]))
  }

  /**
   * There is exactly one script line per line of the trimmed section that is not blank, in the
   * order of those lines, and each is its trimmed line cleaned.
   */
  lemma ScriptLineSources(section: string) returns (idx: seq<nat>)
    ensures var lines, r := Split(Trim(section), '\n'), ScriptLines(section);
            |idx| == |r| && Increasing(idx)
            && (forall k :: 0 <= k < |idx| ==>
                  idx[k] < |lines| && Trim(lines[idx[k]]) != "" && r[k] == CleanLine(Trim(lines[idx[k]])))
            && (forall i :: 0 <= i < |lines| && Trim(lines[i]) != "" ==> i in idx)
  {
    var lines := Split(Trim(section), '\n');
    idx := NonBlankSources(lines);
    assert forall i :: 0 <= i < |lines| ==> Trims(lines)[i] == Trim(lines[i]);
  }

  /** Every position of `idx` comes before the next one. */
  predicate Increasing(idx: seq<nat>) {
    forall j, k :: 0 <= j < k < |idx| ==> idx[j] < idx[k]
  }

  /** Every position moved one line down. */
  function Shift(idx: seq<nat>): seq<nat> {
    seq(|idx|, k requires 0 <= k < |idx| => idx[k] + 1)
  }

  lemma ShiftIncreasing(idx: seq<nat>)
    requires Increasing(idx)
    ensures Increasing(Shift(idx)) && Increasing([0] + Shift(idx))
  {
    var s := [0] + Shift(idx);
    forall j, k | 0 <= j < k < |s| ensures s[j] < s[k] {
      if j > 0 {
        assert s[j] == idx[j - 1] + 1 && s[k] == idx[k - 1] + 1;
      }
    }
  }

  /** Every line trimmed: `.map(s => s.trim())`. */
  function Trims(lines: seq<string>): seq<string> {
    seq(|lines|, i requires 0 <= i < |lines| => Trim(lines[i]))
  }

  /**
   * `idx` traces the kept lines `kept` to the trimmed lines `ts`: the `k`-th kept line is the
   * non-empty `ts[idx[k]]`, the positions increase, and every non-empty trimmed line is one of them.
   */
  predicate TracedTo(ts: seq<string>, kept: seq<string>, idx: seq<nat>) {
    |idx| == |kept| && Increasing(idx)
    && (forall k :: 0 <= k < |idx| ==> idx[k] < |ts| && ts[idx[k]] != "" && kept[k] == ts[idx[k]])
    && (forall i :: 0 <= i < |ts| && ts[i] != "" ==> i in idx)
  }

  /** An empty first line adds no kept line and moves every source one line down. */
  lemma TracedBlankHead(t: string, tail: seq<string>, kept: seq<string>, idx: seq<nat>)
    requires t == "" && TracedTo(tail, kept, idx)
    ensures TracedTo([t] + tail, kept, Shift(idx))
  {
    var ts, s := [t] + tail, Shift(idx);
    ShiftIncreasing(idx);
    forall k | 0 <= k < |s| ensures ts[s[k]] == tail[idx[k]] { }
    forall i | 0 <= i < |ts| && ts[i] != "" ensures i in s {
      assert i > 0 && ts[i] == tail[i - 1];
      var k :| 0 <= k < |idx| && idx[k] == i - 1;
      assert s[k] == i;
    }
  }

  /** A non-empty first line becomes the first kept line, from line 0. */
  lemma TracedKeptHead(t: string, tail: seq<string>, kept: seq<string>, idx: seq<nat>)
    requires t != "" && TracedTo(tail, kept, idx)
    ensures TracedTo([t] + tail, [t] + kept, [0] + Shift(idx))
  {
    var ts, s, ks := [t] + tail, [0] + Shift(idx), [t] + kept;
    ShiftIncreasing(idx);
    forall k | 1 <= k < |s| ensures s[k] == idx[k - 1] + 1 && ts[s[k]] == tail[idx[k - 1]] && ks[k] == kept[k - 1] { }
    forall i | 0 <= i < |ts| && ts[i] != "" ensures i in s {
      if i == 0 {
        assert s[0] == 0;
      } else {
        assert ts[i] == tail[i - 1];
        var k :| 0 <= k < |idx| && idx[k] == i - 1;
        assert s[k + 1] == i;
      }
    }
  }

  /**
   * The kept lines, traced to where they came from: the `k`-th kept line is line `idx[k]`
   * trimmed, the positions increase, and every line that is not blank is one of them.
   */
  lemma {:induction false} NonBlankSources(lines: seq<string>) returns (idx: seq<nat>)
    ensures TracedTo(Trims(lines), NonBlank(lines), idx)
  {
    if lines == [] {
      return [];
    }
    var tail := lines[1..];
    var rest := NonBlankSources(tail);
    var t := Trim(lines[0]);
    assert Trims(lines) == [t] + Trims(tail);
    assert NonBlank(lines) == (if t == "" then [] else [t]) + NonBlank(tail);
    if t == "" {
      TracedBlankHead(t, Trims(tail), NonBlank(tail), rest);
      idx := Shift(rest);
    } else {
      TracedKeptHead(t, Trims(tail), NonBlank(tail), rest);
      idx := [0] + Shift(rest);
    }
  }

  /** Every kept line is non-empty and already trimmed. */
  lemma {:induction false} NonBlankElements(lines: seq<string>)
    ensures forall k :: 0 <= k < |NonBlank(lines)| ==> NonBlank(lines)[k] != "" && Trim(NonBlank(lines)[k]) == NonBlank(lines)[k]
  {
    if lines != [] {
      NonBlankElements(lines[1..]);
      var t := Trim(lines[0]);
      TrimIdempotent(lines[0]);
      var rest := NonBlank(lines[1..]);
      var h: seq<string> := if t == "" then [] else [t];
      var r := NonBlank(lines);
      assert r == h + rest;
      forall k | 0 <= k < |r|
        ensures r[k] != "" && Trim(r[k]) == r[k]
      {
        if k < |h| {
          assert r[k] == t && t != "";
          assert Trim(t) == t;
        } else {
          var j := k - |h|;
          assert r[k] == rest[j];
          assert rest[j] != "";
          assert Trim(rest[j]) == rest[j];
        }
      }
    }
  }

  /** A line that is only a bullet passes the blank-line filter and then becomes the empty script. */
  lemma BareBulletKept()
    ensures ScriptLines("-") == [""]
  {
    SplitOfPlain("-", '\n');
    TrimOfFramed([], "-", []);
    assert [] + "-" + [] == "-";
    assert NonBlankLines("-") == ["-"];
    TrimStartOfSpaced([], []);
    assert CleanLine("-") == "";
  }

  lemma {:induction false} NonBlankAppend(xs: seq<string>, ys: seq<string>)
    ensures NonBlank(xs + ys) == NonBlank(xs) + NonBlank(ys)
  {
    if xs != [] {
      assert (xs + ys)[1..] == xs[1..] + ys;
      NonBlankAppend(xs[1..], ys);
      var t := Trim(xs[0]);
      var h: seq<string> := if t == "" then [] else [t];
      assert (xs + ys)[0] == xs[0];
      assert NonBlank(xs + ys) == h + NonBlank(xs[1..] + ys);
      assert NonBlank(xs) == h + NonBlank(xs[1..]);
    } else {
      assert xs + ys == ys;
    }
  }

  lemma TrimPrefixSpace(w: string, l: string)
    requires AllSpace(w)
    ensures Trim(w + l) == Trim(l)
  {
    var r := Trim(l);
    var lead, trail := TrimParts(l);
    AllSpaceConcat(w, lead);
    TrimOfFramed(w + lead, r, trail);
    ConcatAssoc(w, lead, r, trail);
  }

  lemma TrimSuffixSpace(l: string, w: string)
    requires AllSpace(w)
    ensures Trim(l + w) == Trim(l)
  {
    var r := Trim(l);
    var lead, trail := TrimParts(l);
    AllSpaceConcat(trail, w);
    TrimOfFramed(lead, r, trail + w);
    ConcatAssocEnd(lead, r, trail, w);
  }

  /** Every line is whitespace only. */
  predicate AllBlank(ls: seq<string>)
    decreases |ls|
  {
    |ls| == 0 || (AllSpace(ls[0]) && AllBlank(ls[1..]))
  }

  lemma {:induction false} AllBlankConcat(xs: seq<string>, ys: seq<string>)
    ensures AllBlank(xs + ys) <==> AllBlank(xs) && AllBlank(ys)
    decreases |xs|
  {
    if |xs| > 0 {
      assert (xs + ys)[1..] == xs[1..] + ys;
      AllBlankConcat(xs[1..], ys);
    } else {
      assert xs + ys == ys;
    }
  }

  /** The parts of a whitespace text are whitespace. */
  lemma {:induction false} SplitOfSpace(w: string)
    requires AllSpace(w)
    ensures AllBlank(Split(w, '\n'))
  {
    if |w| > 0 {
      SplitOfSpace(w[1..]);
      var rest := Split(w[1..], '\n');
      if w[0] != '\n' {
        var first := [w[0]] + rest[0];
        assert first[1..] == rest[0];
        assert Split(w, '\n')[1..] == rest[1..];
      } else {
        assert AllSpace("");
        assert Split(w, '\n')[1..] == rest;
      }
    }
  }

  /** Lines that are all whitespace leave nothing behind. */
  lemma {:induction false} NonBlankOfSpaces(ls: seq<string>)
    requires AllBlank(ls)
    ensures NonBlank(ls) == []
    decreases |ls|
  {
    if ls != [] {
      TrimOfSpace(ls[0]);
      NonBlankOfSpaces(ls[1..]);
    }
  }

  lemma NonBlankSingle(x: string, y: string)
    requires Trim(x) == Trim(y)
    ensures NonBlank([x]) == NonBlank([y])
  {
    assert [x][1..] == [] == [y][1..];
  }

  /** Lines that are all whitespace in front change nothing. */
  lemma NonBlankDropSpaces(a: seq<string>, ys: seq<string>)
    requires AllBlank(a)
    ensures NonBlank(a + ys) == NonBlank(ys)
  {
    NonBlankAppend(a, ys);
    NonBlankOfSpaces(a);
    assert [] + NonBlank(ys) == NonBlank(ys);
  }

  lemma NonBlankSameHead(x: string, y: string, tail: seq<string>)
    requires Trim(x) == Trim(y)
    ensures NonBlank([x] + tail) == NonBlank([y] + tail)
  {
    assert ([x] + tail)[1..] == tail == ([y] + tail)[1..];
  }

  lemma NonBlankSameLast(a: seq<string>, x: string, y: string)
    requires Trim(x) == Trim(y)
    ensures NonBlank(a + [x]) == NonBlank(a + [y])
  {
    NonBlankAppend(a, [x]);
    NonBlankAppend(a, [y]);
    NonBlankSingle(x, y);
  }

  lemma NonBlankGlueSpacePrefix(p: seq<string>, q: seq<string>)
    requires |p| >= 1 && |q| >= 1
    requires AllBlank(p)
    ensures NonBlank(Glue(p, q)) == NonBlank(q)
  {
    var n := |p| - 1;
    var a, x, tail := p[..n], p[n] + q[0], q[1..];
    assert p == a + [p[n]];
    AllBlankConcat(a, [p[n]]);
    assert Glue(p, q) == a + ([x] + tail);
    NonBlankDropSpaces(a, [x] + tail);
    TrimPrefixSpace(p[n], q[0]);
    NonBlankSameHead(x, q[0], tail);
    assert q == [q[0]] + tail;
  }

  lemma NonBlankGlueSpaceSuffix(p: seq<string>, q: seq<string>)
    requires |p| >= 1 && |q| >= 1
    requires AllBlank(q)
    ensures NonBlank(Glue(p, q)) == NonBlank(p)
  {
    var n := |p| - 1;
    var a, x, tail := p[..n], p[n] + q[0], q[1..];
    assert Glue(p, q) == (a + [x]) + tail;
    NonBlankAppend(a + [x], tail);
    NonBlankOfSpaces(tail);
    TrimSuffixSpace(p[n], q[0]);
    NonBlankSameLast(a, x, p[n]);
    assert NonBlank(a + [x]) + [] == NonBlank(a + [x]);
    assert p == a + [p[n]];
  }

  lemma NonBlankPrefixSpace(w: string, s: string)
    requires AllSpace(w)
    ensures NonBlankLines(w + s) == NonBlankLines(s)
  {
    SplitConcat(w, s, '\n');
    SplitOfSpace(w);
    NonBlankGlueSpacePrefix(Split(w, '\n'), Split(s, '\n'));
  }

  lemma NonBlankSuffixSpace(s: string, w: string)
    requires AllSpace(w)
    ensures NonBlankLines(s + w) == NonBlankLines(s)
  {
    SplitConcat(s, w, '\n');
    SplitOfSpace(w);
    NonBlankGlueSpaceSuffix(Split(s, '\n'), Split(w, '\n'));
  }

  /**
   * Trimming the section first does not change its non-blank lines, so the script lines
   * are one per line of the section that is not blank, in the section's order.
   */
  lemma NonBlankOfTrimmed(s: string)
    ensures NonBlankLines(Trim(s)) == NonBlankLines(s)
  {
    var r := Trim(s);
    var lead, trail := TrimParts(s);
    var body := r + trail;
    assert s == lead + body;
    NonBlankSuffixSpace(r, trail);
    NonBlankPrefixSpace(lead, body);
  }

  /** Every bullet style, spacing and quoting of the same text gives the same script line. */
  lemma CleanDecorated(b: char, w: string, body: string, close: string)
    requires b in Bullets
    requires AllSpace(w)
    requires body == [] || !IsJsSpace(body[0])
    requires close == [] || close == ['"'] || close == ['\'']
    requires close == [] ==> body == [] || body[|body| - 1] !in Quotes
    ensures CleanLine([b] + w + body + close) == body
  {
    var t := body + close;
    StripBulletOf(b, w + t);
    TrimStartOfSpaced(w, t);
    StripClosingQuoteOf(body, close);
    ConcatAssocStart([b], w, body, close);
  }

  lemma StripBulletOf(b: char, t: string)
    requires b in Bullets
    ensures StripBullet([b] + t) == TrimStart(t)
  {
    assert ([b] + t)[1..] == t;
  }

  lemma StripClosingQuoteOf(body: string, close: string)
    requires close == [] || close == ['"'] || close == ['\'']
    requires close == [] ==> body == [] || body[|body| - 1] !in Quotes
    ensures StripClosingQuote(body + close) == body
  {
    if close != [] {
      assert (body + close)[..|body|] == body;
    } else {
      assert body + close == body;
    }
  }

  /** A line with no decoration at either end is kept as it is. */
  lemma CleanPlain(s: string)
    requires s == [] || (s[0] !in Bullets && s[|s| - 1] !in Quotes)
    ensures CleanLine(s) == s
  {
  }
}
