/**
 * `parseResponse`: the model's reply becomes an AnalysisResponse. The reply is cut at the
 * section markers and the fields are filled by fragment position: fragment 1 is the price
 * analysis, fragment 2 the script lines, fragment 3 the knowledge pill and fragment 4 holds
 * the CRM object. Whatever is missing keeps its default; nothing is ever rejected.
 *
 * `JSON.parse` is the parameter `parse`: it yields the value for a text it accepts and None
 * where it would throw.
 */
module Parser {

  import opened Wrappers
  import opened JsString
  import opened Types
  import opened Sections
  import opened Scripts

  const FenceJson := "```json"
  const Fence := "```"

  /** `.replace(/```json/g, '').replace(/```/g, '')` */
  function StripFences(t: string): string {
    ReplaceAll(ReplaceAll(t, FenceJson, ""), Fence, "")
  }

  /** Removing the code fences removes no character that is not part of a fence. */
  lemma StripFencesKeeps(t: string, c: char)
    requires c !in FenceJson
    ensures c in StripFences(t) <==> c in t
  {
    assert c != '`' by { assert FenceJson[0] == '`'; }
    ReplaceAllKeeps(t, FenceJson, "", c);
    ReplaceAllKeeps(ReplaceAll(t, FenceJson, ""), Fence, "", c);
  }

  /** A text without "```" is left as it is: every "```json" starts with "```". */
  lemma StripFencesOfFree(t: string)
    requires !Occurs(t, Fence)
    ensures StripFences(t) == t
  {
    forall i | 0 <= i <= |t|
      ensures MatchAt(t, FenceJson, i) ==> MatchAt(t, Fence, i)
    {
      if i + |FenceJson| <= |t| {
        assert t[i..i + 3] == t[i..i + |FenceJson|][..3];
        assert FenceJson[..3] == Fence;
      }
    }
    ReplaceAllAbsent(t, FenceJson, "");
    ReplaceAllAbsent(t, Fence, "");
  }

  /**
   * `t.substring(t.indexOf('{'), t.lastIndexOf('}') + 1)`, attempted only when both braces
   * are present.
   */
  function JsonCandidate(t: string): (r: Option<string>)
    ensures r.None? <==> '{' !in t || '}' !in t
  {
    var start, end := IndexOf(t, '{'), LastIndexOf(t, '}');
    if start != -1 && end != -1 then Some(Substring(t, start, end + 1)) else None
  }

  /** When the first `{` comes before the last `}`, the candidate runs from the one to the other. */
  lemma CandidateBraces(t: string, start: int, end: int)
    requires start == IndexOf(t, '{') && end == LastIndexOf(t, '}')
    requires 0 <= start <= end
    ensures var c := JsonCandidate(t).value;
            c == t[start..end + 1] && c[0] == '{' && c[|c| - 1] == '}'
  {
    var c := Substring(t, start, end + 1);
    assert c == t[start..end + 1];
    assert c[0] == t[start] && c[|c| - 1] == t[end];
  }

  /**
   * When the last `}` comes before the first `{`, `substring` swaps its ends and the candidate is
   * the text between them, which holds no brace at all.
   */
  lemma CandidateSwapped(t: string, start: int, end: int)
    requires start == IndexOf(t, '{') && end == LastIndexOf(t, '}')
    requires 0 <= end < start
    ensures var c := JsonCandidate(t).value;
            c == t[end + 1..start] && '{' !in c && '}' !in c
  {
    var c := Substring(t, start, end + 1);
    assert c == t[end + 1..start];
    var before, after := t[..start], t[end + 1..];
    assert '{' !in before && '}' !in after;
    forall k | 0 <= k < |c|
      ensures c[k] != '{' && c[k] != '}'
    {
      assert c[k] == before[end + 1 + k];
      assert c[k] == after[k];
    }
  }

  /** A text without backticks that opens with `{` and closes with `}` is its own candidate. */
  lemma BareObjectCandidate(c: string)
    requires |c| >= 2 && c[0] == '{' && c[|c| - 1] == '}' && '`' !in c
    ensures JsonCandidate(StripFences(c)) == Some(c)
  {
    FirstAbsent(c, FenceJson);
    ReplaceAllAbsent(c, FenceJson, "");
    FirstAbsent(c, Fence);
    ReplaceAllAbsent(c, Fence, "");
    assert IndexOf(c, '{') == 0 && LastIndexOf(c, '}') == |c| - 1;
    assert c[0..|c|] == c;
  }

  /** `.replace(/'/g, '"')` */
  function RepairQuotes(c: string): string {
    ReplaceAll(c, "'", "\"")
  }

  /** The repair turns every `'` into `"` and leaves every other character where it was. */
  lemma RepairQuotesSpec(c: string)
    ensures var r := RepairQuotes(c);
            |r| == |c| && forall i :: 0 <= i < |c| ==> r[i] == (if c[i] == '\'' then '"' else c[i])
  {
    ReplaceAllChar(c, '\'', '"');
  }

  /** A candidate without `'` is retried unchanged. */
  lemma RepairWithoutQuote(c: string)
    requires '\'' !in c
    ensures RepairQuotes(c) == c
  {
    RepairQuotesSpec(c);
  }

  /** Section 4 trimmed, fence-stripped and cut to its braces. */
  function Candidate(section: string): Option<string> {
    JsonCandidate(StripFences(Trim(section)))
  }

  /** The parse is attempted exactly when the section holds both an opening and a closing brace. */
  lemma CandidateExists(section: string)
    ensures Candidate(section).Some? <==> '{' in section && '}' in section
  {
    TrimKeeps(section, '{');
    TrimKeeps(section, '}');
    StripFencesKeeps(Trim(section), '{');
    StripFencesKeeps(Trim(section), '}');
  }

  /** The texts handed to `JSON.parse`, in order: the repaired text only after the strict one failed. */
  function Attempts(parse: string -> Option<Json>, section: string): seq<string> {
    match Candidate(section)
    case None => []
    case Some(c) => if parse(c).Some? then [c] else [c, RepairQuotes(c)]
  }

  /** The value of the first attempt that parses. */
  function FirstSuccess(parse: string -> Option<Json>, xs: seq<string>): (r: Option<Json>)
    ensures r.None? <==> forall k :: 0 <= k < |xs| ==> parse(xs[k]).None?
    ensures r.Some? ==> exists k :: 0 <= k < |xs| && parse(xs[k]) == r && forall j :: 0 <= j < k ==> parse(xs[j]).None?
  {
    if xs == [] then None
    else if parse(xs[0]).Some? then parse(xs[0])
    else
      var r := FirstSuccess(parse, xs[1..]);
      assert forall k :: 1 <= k < |xs| ==> xs[k] == xs[1..][k - 1];
      assert r.Some? ==> exists k :: 0 <= k < |xs| && parse(xs[k]) == r && forall j :: 0 <= j < k ==> parse(xs[j]).None? by {
        if r.Some? {
          var k :| 0 <= k < |xs[1..]| && parse(xs[1..][k]) == r && forall j :: 0 <= j < k ==> parse(xs[1..][j]).None?;
          assert parse(xs[k + 1]) == r;
        }
      }
      r
  }

  /** `crmData` after section 4 `section`: the parsed value, or the default record if nothing parsed. */
  function CrmFrom(parse: string -> Option<Json>, section: string): Json {
    match FirstSuccess(parse, Attempts(parse, section))
    case Some(j) => j
    case None => DefaultResponse.crmData
  }

  /** The record that the fragments `f` of a reply produce. */
  function FromSections(parse: string -> Option<Json>, f: seq<string>): AnalysisResponse {
    AnalysisResponse(
      if |f| > 1 then Trim(f[1]) else DefaultResponse.priceAnalysis,
      if |f| > 2 then ScriptLines(f[2]) else DefaultResponse.salesScripts,
      if |f| > 3 then Trim(f[3]) else DefaultResponse.knowledgePill,
      if |f| > 4 then CrmFrom(parse, f[4]) else DefaultResponse.crmData)
  }

  /** What `parseResponse(text)` returns. */
  function ParsedResponse(parse: string -> Option<Json>, text: string): AnalysisResponse {
    FromSections(parse, SplitSections(text))
  }

  /** The texts `parseResponse(text)` hands to `JSON.parse`. */
  function ParseAttempts(parse: string -> Option<Json>, text: string): seq<string> {
    var f := SplitSections(text);
    if |f| > 4 then Attempts(parse, f[4]) else []
  }

  /**
   * The JSON step for section 4: trim, strip the fences, cut to the braces, parse strictly and,
   * only if that fails, parse the repaired text. `crm` is the parsed value, or `current` when
   * nothing parsed.
   */
  method MineCrm(section: string, parse: string -> Option<Json>, current: Json) returns (crm: Json, ghost attempts: seq<string>)
    ensures attempts == Attempts(parse, section)
    ensures crm == (match FirstSuccess(parse, Attempts(parse, section)) case Some(j) => j case None => current)
  {
    crm, attempts := current, [];
    var jsonText := Trim(section);
    jsonText := ReplaceAll(jsonText, FenceJson, "");
    jsonText := ReplaceAll(jsonText, Fence, "");
    assert jsonText == StripFences(Trim(section));
    var start := IndexOf(jsonText, '{');
    var end := LastIndexOf(jsonText, '}');
    if start != -1 && end != -1 {
      var cleanJson := Substring(jsonText, start, end + 1);
      assert Candidate(section) == Some(cleanJson);
      attempts := [cleanJson];
      var parsed := parse(cleanJson);
      if parsed.Some? {
        crm := parsed.value;
      } else {
        var fixedJson := ReplaceAll(cleanJson, "'", "\"");
        attempts := attempts + [fixedJson];
        assert attempts[1..] == [fixedJson];
        var repaired := parse(fixedJson);
        if repaired.Some? {
          crm := repaired.value;
        }
      }
    } else {
      assert Candidate(section) == None;
    }
  }

  /**
   * `parseResponse`, step by step: start from the default record and overwrite one field per
   * fragment that exists. It is total: every failure leaves the field it concerns at its default.
   */
  method ParseResponse(text: string, parse: string -> Option<Json>) returns (result: AnalysisResponse, ghost attempts: seq<string>)
    ensures result == ParsedResponse(parse, text)
    ensures attempts == ParseAttempts(parse, text)
  {
    result := DefaultResponse;
    attempts := [];
    var sections := SplitSections(text);
    if |sections| > 1 {
      result := result.(priceAnalysis := Trim(sections[1]));
    }
    if |sections| > 2 {
      result := result.(salesScripts := ScriptLines(sections[2]));
    }
    if |sections| > 3 {
      result := result.(knowledgePill := Trim(sections[3]));
    }
    if |sections| > 4 {
      var crm;
      crm, attempts := MineCrm(sections[4], parse, result.crmData);
      result := result.(crmData := crm);
    }
  }

  /** The default record is the CRM record of types.ts filled with the sentinels. */
  lemma DefaultsAreSentinels()
    ensures DefaultResponse.priceAnalysis == "" && DefaultResponse.salesScripts == []
    ensures DefaultResponse.knowledgePill == ""
    ensures JsonToCrm(DefaultResponse.crmData) == Some(CrmData("Erro na an\U{00E1}lise", "N/A", "N/A", []))
  {
    CrmRoundTrip(DefaultCrm);
  }

  /** A reply without any marker leaves every field at its default and never calls `JSON.parse`. */
  lemma NoMarkerGivesDefaults(parse: string -> Option<Json>, text: string)
    requires !HasMarker(text)
    ensures ParsedResponse(parse, text) == DefaultResponse
    ensures ParseAttempts(parse, text) == []
  {
    SplitOfFree(text);
  }

  /**
   * Fields go by fragment position: a reply made of marker-free fragments, whatever digits
   * its markers carry, gives the record of those fragments.
   */
  lemma ByPosition(parse: string -> Option<Json>, frags: seq<string>, ds: seq<char>)
    requires |frags| == |ds| + 1
    requires forall i :: 0 <= i < |ds| ==> IsAsciiDigit(ds[i])
    requires forall i :: 0 <= i < |frags| ==> !HasMarker(frags[i])
    ensures var r := ParsedResponse(parse, Rejoin(frags, ds));
            r.priceAnalysis == (if |frags| > 1 then Trim(frags[1]) else "")
            && r.salesScripts == (if |frags| > 2 then ScriptLines(frags[2]) else [])
            && r.knowledgePill == (if |frags| > 3 then Trim(frags[3]) else "")
            && r.crmData == (if |frags| > 4 then CrmFrom(parse, frags[4]) else DefaultResponse.crmData)
  {
    RejoinSplit(frags, ds);
  }

  /** The digits written in the markers do not matter. */
  lemma DigitsIgnored(parse: string -> Option<Json>, frags: seq<string>, ds: seq<char>, es: seq<char>)
    requires |frags| == |ds| + 1 && |ds| == |es|
    requires forall i :: 0 <= i < |ds| ==> IsAsciiDigit(ds[i]) && IsAsciiDigit(es[i])
    requires forall i :: 0 <= i < |frags| ==> !HasMarker(frags[i])
    ensures ParsedResponse(parse, Rejoin(frags, ds)) == ParsedResponse(parse, Rejoin(frags, es))
  {
    RejoinSplit(frags, ds);
    RejoinSplit(frags, es);
  }

  /** Sections past the fourth are dropped. */
  lemma ExtraSectionsIgnored(parse: string -> Option<Json>, frags: seq<string>, ds: seq<char>)
    requires |frags| == |ds| + 1 && |frags| >= 5
    requires forall i :: 0 <= i < |ds| ==> IsAsciiDigit(ds[i])
    requires forall i :: 0 <= i < |frags| ==> !HasMarker(frags[i])
    ensures ParsedResponse(parse, Rejoin(frags, ds)) == ParsedResponse(parse, Rejoin(frags[..5], ds[..4]))
  {
    RejoinSplit(frags, ds);
    RejoinSplit(frags[..5], ds[..4]);
  }

  /** The text before the first marker does not matter. */
  lemma PreambleIgnored(parse: string -> Option<Json>, a: string, b: string, d: char, rest: string)
    requires IsAsciiDigit(d)
    requires !HasMarker(a) && !HasMarker(b)
    ensures ParsedResponse(parse, a + Marker(d) + rest) == ParsedResponse(parse, b + Marker(d) + rest)
  {
    SplitAfterFree(a, d, rest);
    SplitAfterFree(b, d, rest);
  }

  /**
   * The script lines: one per line of section 2 that is not blank, in order, each its trimmed
   * line with the decorations CleanLine describes taken off.
   */
  lemma ScriptsFromSection(parse: string -> Option<Json>, text: string)
    requires |SplitSections(text)| > 2
    ensures var lines, r := NonBlankLines(SplitSections(text)[2]), ParsedResponse(parse, text).salesScripts;
            |r| == |lines| && forall k :: 0 <= k < |r| ==> r[k] == CleanLine(lines[k])
  {
    NonBlankOfTrimmed(SplitSections(text)[2]);
  }

  /** The control flow around `JSON.parse`: at most two attempts, the repaired text only after the strict one failed. */
  lemma AttemptsShape(parse: string -> Option<Json>, section: string)
    ensures var a := Attempts(parse, section);
            |a| <= 2
            && (|a| == 0 <==> '{' !in section || '}' !in section)
            && (|a| >= 1 ==> Candidate(section) == Some(a[0]))
            && (|a| == 1 <==> |a| >= 1 && parse(a[0]).Some?)
            && (|a| == 2 ==> a[1] == RepairQuotes(a[0]))
  {
    CandidateExists(section);
  }

  /**
   * `crmData` is replaced wholesale by the value of the attempt that parsed, and keeps the default
   * record when none did.
   */
  lemma CrmOutcome(parse: string -> Option<Json>, section: string)
    ensures var a, crm := Attempts(parse, section), CrmFrom(parse, section);
            ((forall k :: 0 <= k < |a| ==> parse(a[k]).None?) ==> crm == DefaultResponse.crmData)
            && ((exists k :: 0 <= k < |a| && parse(a[k]).Some?) ==> parse(a[|a| - 1]) == Some(crm))
  {
    var a := Attempts(parse, section);
    if |a| == 2 {
      assert parse(a[0]).None?;
    }
  }

  /** Without a brace pair in section 4 the default record stays. */
  lemma MissingBraceKeepsDefault(parse: string -> Option<Json>, section: string)
    requires '{' !in section || '}' !in section
    ensures CrmFrom(parse, section) == DefaultResponse.crmData
  {
    CandidateExists(section);
  }

  /** A candidate without `'` that fails strictly is retried unchanged, so it fails again. */
  lemma RepairCannotHelp(parse: string -> Option<Json>, section: string)
    requires Candidate(section).Some? && '\'' !in Candidate(section).value
    requires parse(Candidate(section).value).None?
    ensures Attempts(parse, section) == [Candidate(section).value, Candidate(section).value]
    ensures CrmFrom(parse, section) == DefaultResponse.crmData
  {
    RepairWithoutQuote(Candidate(section).value);
  }

  /**
   * A parsed object replaces the default record as a whole: a reply whose object names only
   * `resumo_imovel` leaves the other three CRM fields absent rather than at their defaults.
   */
  lemma WholesaleReplacement(parse: string -> Option<Json>, section: string)
    requires Candidate(section).Some?
    requires parse(Candidate(section).value) == Some(JObject([(ResumoKey, JString("x"))]))
    ensures CrmFrom(parse, section) == JObject([(ResumoKey, JString("x"))])
    ensures JsonToCrm(CrmFrom(parse, section)) == None
  {
  }
}
