/**
 * What the parser returns for whole replies: a reply in the instructed layout whose CRM object is
 * written with single quotes.
 */
module Scenarios {

  import opened Wrappers
  import opened JsString
  import opened Types
  import opened Sections
  import opened Scripts
  import opened Parser
  import opened Request

  const StrictObject := "{\"a\":1}"
  const QuotedObject := "{'a':1}"

  /** The object `StrictObject` denotes. */
  const OneObject := JObject([("a", JNumber(1.0))])

  /** A `JSON.parse` that knows one object, written with double quotes, and rejects anything else. */
  function OneObjectParse(s: string): Option<Json> {
    if s == StrictObject then Some(OneObject) else None
  }

  /** A text between two line breaks trims to itself when neither of its ends is whitespace. */
  lemma TrimBetweenBreaks(x: string, tail: string)
    requires x != [] && !IsJsSpace(x[0]) && !IsJsSpace(x[|x| - 1])
    requires tail == [] || tail == "\n"
    ensures Trim("\n" + x + tail) == x
  {
    assert AllSpace("\n");
    assert AllSpace(tail);
    TrimOfFramed("\n", x, tail);
  }

  lemma QuotedRepair(c: string)
    requires c == QuotedObject
    ensures c != StrictObject && RepairQuotes(c) == StrictObject
  {
    assert c[1] != StrictObject[1];
    RepairQuotesSpec(c);
  }

  /** A CRM section written with single quotes fails strictly and is recovered by the repair. */
  lemma QuotedSectionRecovered(section: string)
    requires section == "\n" + QuotedObject
    ensures Attempts(OneObjectParse, section) == [QuotedObject, StrictObject]
    ensures CrmFrom(OneObjectParse, section) == OneObject
  {
    var c := QuotedObject;
    TrimBetweenBreaks(c, []);
    assert section == "\n" + c + [];
    BareObjectCandidate(c);
    QuotedRepair(c);
    var a := Attempts(OneObjectParse, section);
    assert a == [c, StrictObject];
    assert OneObjectParse(c) == None;
    assert a[1..] == [StrictObject];
    assert FirstSuccess(OneObjectParse, a[1..]) == Some(OneObject);
  }

  lemma ScriptLinesOfOne(line: string)
    requires line != [] && !IsJsSpace(line[0]) && !IsJsSpace(line[|line| - 1]) && '\n' !in line
    ensures ScriptLines("\n" + line + "\n") == [CleanLine(line)]
  {
    TrimBetweenBreaks(line, "\n");
    SplitOfPlain(line, '\n');
    TrimOfFramed([], line, []);
    assert [] + line + [] == line;
    assert NonBlankLines(line) == [line];
  }

  /** A section holding one script line written as a dash bullet gives that line without the bullet. */
  lemma BulletedScript(body: string)
    requires body != [] && !IsJsSpace(body[0]) && !IsJsSpace(body[|body| - 1])
    requires body[|body| - 1] !in Quotes && '\n' !in body
    ensures ScriptLines("\n- " + body + "\n") == [body]
  {
    var line := "- " + body;
    CleanDecorated('-', " ", body, []);
    assert ['-'] + " " + body + [] == line;
    ScriptLinesOfOne(line);
    assert "\n- " + body + "\n" == "\n" + line + "\n";
  }

  /** Fragments without `[` hold no delimiter. */
  lemma FragmentsPlain(a: seq<string>)
    requires forall i :: 0 <= i < |a| ==> '[' !in a[i]
    ensures forall i :: 0 <= i < |a| ==> !HasMarker(a[i])
  {
    forall i | 0 <= i < |a|
      ensures !HasMarker(a[i])
    {
      NoBracketNoMarker(a[i]);
    }
  }

  lemma Regroup(m0: string, p: string, m1: string, s: string, m2: string, g: string, m3: string, c: string)
    ensures m0 + "\n" + p + "\n" + m1 + "\n- " + s + "\n" + m2 + "\n" + g + "\n" + m3 + "\n" + c
            == "" + m0 + ("\n" + p + "\n") + m1 + ("\n- " + s + "\n") + m2 + ("\n" + g + "\n") + m3 + ("\n" + c)
  {
  }

  /** A one-line text with no whitespace at its ends and no `[`. */
  predicate Word(w: string) {
    w != [] && !IsJsSpace(w[0]) && !IsJsSpace(w[|w| - 1]) && '\n' !in w && '[' !in w
  }

  /**
   * A reply in the instructed layout, with the delimiters the instruction uses and each section
   * on lines of its own: the price analysis and the pill come out as written, the dash bullet is
   * stripped from the script, and the CRM value is the object the repaired text parses to, as a
   * whole, so it names none of the CRM fields and no longer reads as a CRM record.
   */
  lemma WorkedExample(price: string, script: string, pill: string, text: string)
    requires Word(price) && Word(script) && Word(pill) && script[|script| - 1] !in Quotes
    requires text == InstructionMarkers[0] + "\n" + price + "\n" + InstructionMarkers[1] + "\n- " + script + "\n"
                     + InstructionMarkers[2] + "\n" + pill + "\n" + InstructionMarkers[3] + "\n" + QuotedObject
    ensures ParsedResponse(OneObjectParse, text) == AnalysisResponse(price, [script], pill, OneObject)
    ensures JsonToCrm(ParsedResponse(OneObjectParse, text).crmData) == None
  {
    var a := ["", "\n" + price + "\n", "\n- " + script + "\n", "\n" + pill + "\n", "\n" + QuotedObject];
    assert forall i :: 0 <= i < |a| ==> '[' !in a[i];
    FragmentsPlain(a);
    InstructedLayout(OneObjectParse, a);
    var m := InstructionMarkers;
    Regroup(m[0], price, m[1], script, m[2], pill, m[3], QuotedObject);
    TrimBetweenBreaks(price, "\n");
    TrimBetweenBreaks(pill, "\n");
    BulletedScript(script);
    QuotedSectionRecovered(a[4]);
  }
}
