/**
 * The decisions `analyzeProperty` takes around the call to the model: the API-key guard, the
 * sale or rental wording, the amenities phrase, the section markers of the system instruction,
 * the empty-reply guard and the hand-off to the parser. The call itself is the parameter
 * `service`; the prompt prose around these values is not modelled.
 */
module Request {

  import opened Wrappers
  import opened JsString
  import opened Types
  import opened Sections
  import opened Scripts
  import opened Parser

  const MissingKeyMessage := "API Key not found in environment variables."
  const NoResponseMessage := "No response from Gemini"

  /** The prompt's `transactionContext`. */
  function TransactionContext(t: TransactionType): string {
    if t == Aluguel then "LOCA\U{00C7}\U{00C3}O/ALUGUEL" else "VENDA"
  }

  /** The prompt's `priceContext`. */
  function PriceContext(t: TransactionType): string {
    if t == Aluguel then "Valor do Aluguel Mensal" else "Pre\U{00E7}o de Venda Total"
  }

  /** The word of the prompt's last sentence; this test is written against 'venda', the other two against 'aluguel'. */
  function FocusWord(t: TransactionType): string {
    if t == Venda then "venda" else "loca\U{00E7}\U{00E3}o"
  }

  /** The three wordings agree: every one of them is the sale wording exactly for a sale. */
  lemma ContextsAgree(t: TransactionType)
    ensures TransactionContext(t) == "VENDA" <==> t == Venda
    ensures PriceContext(t) == "Pre\U{00E7}o de Venda Total" <==> t == Venda
    ensures FocusWord(t) == "venda" <==> t == Venda
  {
    assert "LOCA\U{00C7}\U{00C3}O/ALUGUEL"[0] != "VENDA"[0];
    assert "Valor do Aluguel Mensal"[0] != "Pre\U{00E7}o de Venda Total"[0];
    assert "loca\U{00E7}\U{00E3}o"[0] != "venda"[0];
  }

  /** The amenity labels, in the order the array lists them. */
  const AmenityLabels: seq<string> := [
    "Em Condom\U{00ED}nio Fechado", "Mobiliado", "Com Piscina Privativa",
    "Com Quintal", "Com Jardim", "Com Ar-condicionado"]

  /** The flags in the same order as the labels. */
  function AmenityFlags(d: PropertyFormData): (r: seq<bool>)
    ensures |r| == |AmenityLabels|
  {
    [d.isCondo, d.isFurnished, d.hasPool, d.hasBackyard, d.hasGarden, d.hasAirConditioning]
  }

  function CountTrue(flags: seq<bool>): (n: nat)
    ensures n <= |flags|
  {
    if flags == [] then 0 else (if flags[0] then 1 else 0) + CountTrue(flags[1..])
  }

  /**
   * `[f0 ? l0 : null, …].filter(Boolean)`: the label of every set flag, in order. Every label is
   * a non-empty string, so `filter(Boolean)` drops exactly the nulls.
   */
  function SelectLabels(flags: seq<bool>, labels: seq<string>): (r: seq<string>)
    requires |flags| == |labels|
    ensures |r| == CountTrue(flags)
    ensures forall x :: x in r ==> exists i :: 0 <= i < |labels| && flags[i] && labels[i] == x
  {
    if flags == [] then []
    else
      var rest := SelectLabels(flags[1..], labels[1..]);
      assert forall i :: 0 <= i < |labels| - 1 ==> labels[1..][i] == labels[i + 1] && flags[1..][i] == flags[i + 1];
      (if flags[0] then [labels[0]] else []) + rest
  }

  /** Selecting from two lists one after the other: the labels keep their order. */
  lemma {:induction false} SelectConcat(f: seq<bool>, l: seq<string>, g: seq<bool>, m: seq<string>)
    requires |f| == |l| && |g| == |m|
    ensures SelectLabels(f + g, l + m) == SelectLabels(f, l) + SelectLabels(g, m)
  {
    if f != [] {
      assert (f + g)[1..] == f[1..] + g;
      assert (l + m)[1..] == l[1..] + m;
      SelectConcat(f[1..], l[1..], g, m);
    } else {
      assert f + g == g && l + m == m;
    }
  }

  /** With distinct labels, a label is selected exactly when its flag is set. */
  lemma {:induction false} SelectedIff(flags: seq<bool>, labels: seq<string>, i: int)
    requires |flags| == |labels| && 0 <= i < |labels|
    requires forall j, k :: 0 <= j < k < |labels| ==> labels[j] != labels[k]
    ensures labels[i] in SelectLabels(flags, labels) <==> flags[i]
  {
    if i > 0 {
      SelectedIff(flags[1..], labels[1..], i - 1);
      assert labels[1..][i - 1] == labels[i];
    }
  }

  lemma {:induction false} CountTrueZero(flags: seq<bool>)
    ensures CountTrue(flags) == 0 <==> forall i :: 0 <= i < |flags| ==> !flags[i]
  {
    if flags != [] {
      CountTrueZero(flags[1..]);
      assert forall i :: 1 <= i < |flags| ==> flags[1..][i - 1] == flags[i];
    }
  }

  /** A join of non-empty parts starts with the first character of the first part. */
  lemma {:induction false} JoinHead(parts: seq<string>, sep: string)
    requires |parts| > 0 && |parts[0]| > 0
    ensures |Join(parts, sep)| > 0 && Join(parts, sep)[0] == parts[0][0]
  {
  }

  /** `amenities`: the labels of the set flags joined by ", ". */
  function Amenities(d: PropertyFormData): string {
    Join(SelectLabels(AmenityFlags(d), AmenityLabels), ", ")
  }

  const NoAmenities := "Nenhuma informada"

  /** `${amenities || 'Nenhuma informada'}` */
  function AmenitiesText(d: PropertyFormData): string {
    var a := Amenities(d);
    if a == "" then NoAmenities else a
  }

  /** A label is listed exactly when its flag is set. */
  lemma AmenityListed(d: PropertyFormData, i: int)
    requires 0 <= i < |AmenityLabels|
    ensures AmenityLabels[i] in SelectLabels(AmenityFlags(d), AmenityLabels) <==> AmenityFlags(d)[i]
  {
    var l := AmenityLabels;
    assert l[0][0] == 'E' && l[1][0] == 'M' && l[2][4] == 'P' && l[3][4] == 'Q' && l[4][4] == 'J' && l[5][4] == 'A';
    SelectedIff(AmenityFlags(d), AmenityLabels, i);
  }

  /** The prompt says 'Nenhuma informada' exactly when no flag is set. */
  lemma NoAmenitiesIff(d: PropertyFormData)
    ensures AmenitiesText(d) == NoAmenities <==> forall i :: 0 <= i < 6 ==> !AmenityFlags(d)[i]
  {
    var sel := SelectLabels(AmenityFlags(d), AmenityLabels);
    CountTrueZero(AmenityFlags(d));
    if sel != [] {
      var x := sel[0];
      assert x in sel;
      var i :| 0 <= i < |AmenityLabels| && AmenityFlags(d)[i] && AmenityLabels[i] == x;
      assert x[0] != 'N';
      JoinHead(sel, ", ");
      assert Amenities(d)[0] != NoAmenities[0];
    }
  }

  /** Setting the first and the third of six flags selects the first and the third label, in that order. */
  lemma SelectFirstAndThird(f: seq<bool>, l: seq<string>)
    requires |l| == 6 && f == [true, false, true, false, false, false]
    ensures SelectLabels(f, l) == [l[0], l[2]]
  {
    assert SelectLabels(f[3..], l[3..]) == [];
    assert SelectLabels(f[2..], l[2..]) == [l[2]];
    assert SelectLabels(f[1..], l[1..]) == [l[2]];
  }

  /** The labels follow the array's order, not the form's: condominium before pool. */
  lemma AmenitiesExample(d: PropertyFormData)
    requires d.isCondo && d.hasPool
    requires !d.isFurnished && !d.hasBackyard && !d.hasGarden && !d.hasAirConditioning
    ensures AmenitiesText(d) == AmenityLabels[0] + ", " + AmenityLabels[2]
  {
    var l := AmenityLabels;
    SelectFirstAndThird(AmenityFlags(d), l);
    assert Join([l[0], l[2]], ", ") == l[0] + ", " + l[2];
  }

  /** The four delimiters the system instruction asks the model to write. */
  const InstructionMarkers: seq<string> := [
    "[[SE\U{00C7}\U{00C3}O 1]]", "[[SE\U{00C7}\U{00C3}O 2]]",
    "[[SE\U{00C7}\U{00C3}O 3]]", "[[SE\U{00C7}\U{00C3}O 4]]"]

  /** Every delimiter of the instruction is a match of the parser's marker regex. */
  lemma InstructionMarkersMatch()
    ensures forall i :: 0 <= i < 4 ==> IsMarker(InstructionMarkers[i]) && InstructionMarkers[i] == Marker("1234"[i])
  {
    assert InstructionMarkers[0] == Marker('1');
    assert InstructionMarkers[1] == Marker('2');
    assert InstructionMarkers[2] == Marker('3');
    assert InstructionMarkers[3] == Marker('4');
  }

  /** The instructed layout is the rejoining of the five fragments with the digits 1 to 4. */
  lemma InstructedText(a: seq<string>)
    requires |a| == 5
    ensures var ds := "1234";
            (forall i :: 0 <= i < 4 ==> IsAsciiDigit(ds[i]))
            && a[0] + InstructionMarkers[0] + a[1] + InstructionMarkers[1] + a[2]
               + InstructionMarkers[2] + a[3] + InstructionMarkers[3] + a[4] == Rejoin(a, ds)
  {
    InstructionMarkersMatch();
    var ds := "1234";
    var m := InstructionMarkers;
    var r4 := Rejoin(a[4..], ds[4..]);
    assert r4 == a[4];
    var r3 := Rejoin(a[3..], ds[3..]);
    assert a[3..][1..] == a[4..] && ds[3..][1..] == ds[4..];
    assert r3 == a[3] + m[3] + r4;
    var r2 := Rejoin(a[2..], ds[2..]);
    assert a[2..][1..] == a[3..] && ds[2..][1..] == ds[3..];
    assert r2 == a[2] + m[2] + r3;
    var r1 := Rejoin(a[1..], ds[1..]);
    assert a[1..][1..] == a[2..] && ds[1..][1..] == ds[2..];
    assert r1 == a[1] + m[1] + r2;
    assert Rejoin(a, ds) == a[0] + m[0] + r1;
  }

  /**
   * A reply laid out as the instruction asks puts each section in its own field, whatever text
   * comes before the first delimiter.
   */
  lemma InstructedLayout(parse: string -> Option<Json>, a: seq<string>)
    requires |a| == 5
    requires forall i :: 0 <= i < 5 ==> !HasMarker(a[i])
    ensures var text := a[0] + InstructionMarkers[0] + a[1] + InstructionMarkers[1] + a[2]
                        + InstructionMarkers[2] + a[3] + InstructionMarkers[3] + a[4];
            ParsedResponse(parse, text)
              == AnalysisResponse(Trim(a[1]), ScriptLines(a[2]), Trim(a[3]), CrmFrom(parse, a[4]))
  {
    InstructedText(a);
    ByPosition(parse, a, "1234");
  }

  /** What the model is called with: the form and the values the prompt is built from. */
  datatype ModelRequest = ModelRequest(
    property: PropertyFormData,
    transactionContext: string,
    priceContext: string,
    amenities: string,
    focusWord: string,
    sectionMarkers: seq<string>)

  /**
   * The request for the form `d`: sale wording exactly for a sale, the fallback phrase exactly when
   * no amenity is set, and four delimiters that the parser splits on.
   */
  function BuildRequest(d: PropertyFormData): (r: ModelRequest)
    ensures r.property == d
    ensures r.transactionContext == "VENDA" <==> d.transactionType == Venda
    ensures r.priceContext == "Pre\U{00E7}o de Venda Total" <==> d.transactionType == Venda
    ensures r.focusWord == "venda" <==> d.transactionType == Venda
    ensures d.transactionType == Aluguel ==>
              r.transactionContext == "LOCA\U{00C7}\U{00C3}O/ALUGUEL" && r.priceContext == "Valor do Aluguel Mensal"
              && r.focusWord == "loca\U{00E7}\U{00E3}o"
    ensures r.amenities == NoAmenities <==> forall i :: 0 <= i < 6 ==> !AmenityFlags(d)[i]
    ensures r.amenities != NoAmenities ==> r.amenities == Join(SelectLabels(AmenityFlags(d), AmenityLabels), ", ")
    ensures forall i :: 0 <= i < |AmenityLabels| ==>
              (AmenityLabels[i] in SelectLabels(AmenityFlags(d), AmenityLabels) <==> AmenityFlags(d)[i])
    ensures |r.sectionMarkers| == 4 && forall i :: 0 <= i < 4 ==> IsMarker(r.sectionMarkers[i])
  {
    ContextsAgree(d.transactionType);
    NoAmenitiesIff(d);
    forall i | 0 <= i < |AmenityLabels|
      ensures AmenityLabels[i] in SelectLabels(AmenityFlags(d), AmenityLabels) <==> AmenityFlags(d)[i]
    {
      AmenityListed(d, i);
    }
    InstructionMarkersMatch();
    ModelRequest(d, TransactionContext(d.transactionType), PriceContext(d.transactionType),
                 AmenitiesText(d), FocusWord(d.transactionType), InstructionMarkers)
  }

  /** How the call to the model ends: with `response.text` (possibly undefined) or with an error. */
  datatype CallOutcome = Replied(text: Option<string>) | Threw(message: string)

  /**
   * `analyzeProperty`. `apiKey` is `process.env.API_KEY` and `service` the model call; `sent` is
   * the request the model was called with, None when it was not called. An error is its message.
   */
  method AnalyzeProperty(data: PropertyFormData, apiKey: Option<string>, service: ModelRequest -> CallOutcome,
                         parse: string -> Option<Json>)
    returns (r: Result<AnalysisResponse, string>, sent: Option<ModelRequest>)
    ensures (apiKey.None? || apiKey.value == "") ==> r == Failure(MissingKeyMessage) && sent == None
    ensures apiKey.Some? && apiKey.value != "" ==> sent == Some(BuildRequest(data))
    ensures sent.Some? ==> match service(sent.value)
                           case Threw(e) => r == Failure(e)
                           case Replied(t) =>
                             if t.None? || t.value == "" then r == Failure(NoResponseMessage)
                             else r == Success(ParsedResponse(parse, t.value))
  {
    if apiKey.None? || apiKey.value == "" {
      return Failure(MissingKeyMessage), None;
    }
    var request := BuildRequest(data);
    sent := Some(request);
    var outcome := service(request);
    match outcome
    case Threw(e) =>
      r := Failure(e);
    case Replied(text) =>
      if text.None? || text.value == "" {
        r := Failure(NoResponseMessage);
      } else {
        var parsed;
        ghost var attempts;
        parsed, attempts := ParseResponse(text.value, parse);
        r := Success(parsed);
      }
  }
}
