/** The records of types.ts, and the JSON values that `JSON.parse` may produce. */
module Types {

  import opened Wrappers

  datatype TransactionType = Venda | Aluguel

  /** One property submitted from the form. JavaScript numbers are modelled as reals. */
  datatype PropertyFormData = PropertyFormData(
    transactionType: TransactionType,
    propertyType: string,
    location: string,
    size: real,
    rooms: real,
    condition: string,
    price: real,
    garage: real,
    suites: real,
    isFurnished: bool,
    isCondo: bool,
    hasBackyard: bool,
    hasPool: bool,
    hasGarden: bool,
    hasAirConditioning: bool)

  /** A JSON value; an object keeps its members in order. */
  datatype Json =
    | JNull
    | JBool(b: bool)
    | JNumber(n: real)
    | JString(str: string)
    | JArray(items: seq<Json>)
    | JObject(members: seq<(string, Json)>)

  /** The CRM record the prompt asks for in its fourth section. */
  datatype CrmData = CrmData(
    resumoImovel: string,
    faixaPrecoSugerida: string,
    nivelDificuldadeVenda: string,
    tagsSugeridas: seq<string>)

  /**
   * The parsed reply. `crmData` holds whatever `JSON.parse` returned: the declared CrmData
   * type is not checked at run time, so the model keeps it as a JSON value.
   */
  datatype AnalysisResponse = AnalysisResponse(
    priceAnalysis: string,
    salesScripts: seq<string>,
    knowledgePill: string,
    crmData: Json)

  datatype AppState = LOGIN | FORM | LOADING | RESULT | ERROR

  const ResumoKey := "resumo_imovel"
  const FaixaKey := "faixa_preco_sugerida"
  const NivelKey := "nivel_dificuldade_venda"
  const TagsKey := "tags_sugeridas"

  function StringsToJson(xs: seq<string>): (r: seq<Json>)
    ensures |r| == |xs| && forall i :: 0 <= i < |xs| ==> r[i] == JString(xs[i])
  {
    if xs == [] then [] else [JString(xs[0])] + StringsToJson(xs[1..])
  }

  /** A CRM record written as the JSON object the prompt describes. */
  function CrmToJson(c: CrmData): Json {
    JObject([(ResumoKey, JString(c.resumoImovel)),
             (FaixaKey, JString(c.faixaPrecoSugerida)),
             (NivelKey, JString(c.nivelDificuldadeVenda)),
             (TagsKey, JArray(StringsToJson(c.tagsSugeridas)))])
  }

  /** The value of the last member named `key`, as when `JSON.parse` meets a repeated key. */
  function Lookup(members: seq<(string, Json)>, key: string): (r: Option<Json>)
    ensures r.Some? <==> exists i :: 0 <= i < |members| && members[i].0 == key
    ensures r.Some? ==> exists i :: 0 <= i < |members| && members[i] == (key, r.value)
                                    && forall j :: i < j < |members| ==> members[j].0 != key
  {
    if members == [] then None
    else if members[|members| - 1].0 == key then Some(members[|members| - 1].1)
    else
      var init := members[..|members| - 1];
      var r := Lookup(init, key);
      assert forall i :: 0 <= i < |members| - 1 ==> init[i] == members[i];
      assert r.Some? ==> exists i :: 0 <= i < |members| && members[i] == (key, r.value)
                                     && forall j :: i < j < |members| ==> members[j].0 != key by {
        if r.Some? {
          var i :| 0 <= i < |init| && init[i] == (key, r.value) && forall j :: i < j < |init| ==> init[j].0 != key;
          assert members[i] == (key, r.value);
        }
      }
      r
  }

  function JsonToStrings(items: seq<Json>): (r: Option<seq<string>>)
    ensures r.Some? <==> forall i :: 0 <= i < |items| ==> items[i].JString?
    ensures r.Some? ==> |r.value| == |items| && forall i :: 0 <= i < |items| ==> items[i] == JString(r.value[i])
  {
    if items == [] then Some([])
    else if !items[0].JString? then None
    else match JsonToStrings(items[1..])
      case None => None
      case Some(rest) => Some([items[0].str] + rest)
  }

  /** Reads a JSON value as a CRM record: an object whose four fields have the declared types. */
  function JsonToCrm(j: Json): Option<CrmData> {
    if !j.JObject? then None
    else
      var resumo := Lookup(j.members, ResumoKey);
      var faixa := Lookup(j.members, FaixaKey);
      var nivel := Lookup(j.members, NivelKey);
      var tags := Lookup(j.members, TagsKey);
      if resumo.Some? && resumo.value.JString? && faixa.Some? && faixa.value.JString?
         && nivel.Some? && nivel.value.JString? && tags.Some? && tags.value.JArray?
      then
        match JsonToStrings(tags.value.items)
        case None => None
        case Some(ts) => Some(CrmData(resumo.value.str, faixa.value.str, nivel.value.str, ts))
      else None
  }

  lemma {:induction false} StringsRoundTrip(xs: seq<string>)
    ensures JsonToStrings(StringsToJson(xs)) == Some(xs)
  {
    if xs != [] {
      StringsRoundTrip(xs[1..]);
      assert StringsToJson(xs)[1..] == StringsToJson(xs[1..]);
      assert xs == [xs[0]] + xs[1..];
    }
  }

  lemma LookupSkip(ms: seq<(string, Json)>, p: (string, Json), key: string)
    requires p.0 != key
    ensures Lookup(ms + [p], key) == Lookup(ms, key)
  {
    assert (ms + [p])[..|ms|] == ms;
  }

  /** In an object with four distinct keys, each key finds its own value. */
  lemma LookupOfFour(k0: string, k1: string, k2: string, k3: string, v0: Json, v1: Json, v2: Json, v3: Json)
    requires k0 != k1 && k0 != k2 && k0 != k3 && k1 != k2 && k1 != k3 && k2 != k3
    ensures var m := [(k0, v0), (k1, v1), (k2, v2), (k3, v3)];
            Lookup(m, k0) == Some(v0) && Lookup(m, k1) == Some(v1)
            && Lookup(m, k2) == Some(v2) && Lookup(m, k3) == Some(v3)
  {
    var p0, p1, p2, p3 := (k0, v0), (k1, v1), (k2, v2), (k3, v3);
    var m1 := [p0];
    var m2 := m1 + [p1];
    var m3 := m2 + [p2];
    var m := m3 + [p3];
    LookupSkip(m1, p1, k0);
    LookupSkip(m2, p2, k0);
    LookupSkip(m3, p3, k0);
    LookupSkip(m2, p2, k1);
    LookupSkip(m3, p3, k1);
    LookupSkip(m3, p3, k2);
    FourAppended(p0, p1, p2, p3);
  }

  lemma FourAppended<T>(p0: T, p1: T, p2: T, p3: T)
    ensures [p0] + [p1] + [p2] + [p3] == [p0, p1, p2, p3]
  {
  }

  /** A CRM record survives being written as JSON and read back. */
  lemma CrmRoundTrip(c: CrmData)
    ensures JsonToCrm(CrmToJson(c)) == Some(c)
  {
    StringsRoundTrip(c.tagsSugeridas);
    assert |ResumoKey| == 13 && |FaixaKey| == 20 && |NivelKey| == 23 && |TagsKey| == 14;
    LookupOfFour(ResumoKey, FaixaKey, NivelKey, TagsKey, JString(c.resumoImovel), JString(c.faixaPrecoSugerida),
                 JString(c.nivelDificuldadeVenda), JArray(StringsToJson(c.tagsSugeridas)));
  }

  /** The record the parser starts from (types.ts's CrmData, filled with the sentinels). */
  const DefaultCrm := CrmData("Erro na an\U{00E1}lise", "N/A", "N/A", [])

  const DefaultResponse := AnalysisResponse("", [], "", CrmToJson(DefaultCrm))
}
