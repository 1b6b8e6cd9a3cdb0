/**
 * The local, rule-based side of Gemini.py, which is what runs when the language
 * model is switched off or fails: the code-fence cleaner for model replies, the
 * one-paragraph fallback summary, the fallback content sections, the completion
 * of a parsed reply's missing keys, the `<li>` list formatter and the
 * attractiveness gate of the HTML report.
 *
 * The model's reply and the JSON parser are parameters: the reply is `None` when
 * the call raised, and the parser returns `None` where `json.loads` raises.
 */
module GeminiFallback {
  import opened Optional
  import opened PyStr
  import opened PyValue
  import AttributeInterpreter

  // ---------------------------------------------------------------- reply cleaning

  /** What `clean_json_response` returns. */
  function CleanJson(text: string): string {
    var t := Strip(text);
    var u := if StartsWith(t, "```json") then t[7..] else if StartsWith(t, "```") then t[3..] else t;
    var w := if EndsWith(u, "```") then u[..|u| - 3] else u;
    Strip(w)
  }

  /** `clean_json_response(response_text)`, reassigning the text step by step. */
  method CleanJsonResponse(responseText: string) returns (r: string)
    ensures r == CleanJson(responseText)
  {
    r := Strip(responseText);
    if StartsWith(r, "```json") {
      r := r[7..];
    } else if StartsWith(r, "```") {
      r := r[3..];
    }
    if EndsWith(r, "```") {
      r := r[..|r| - 3];
    }
    r := Strip(r);
  }

  /** A reply with no fence at either end is only stripped. */
  lemma CleanFenceFree(text: string)
    requires !StartsWith(Strip(text), "```") && !EndsWith(Strip(text), "```")
    ensures CleanJson(text) == Strip(Strip(text))
  {
    var t := Strip(text);
    if StartsWith(t, "```json") {
      assert "```json" == "```" + "json";
      StartsWithPrefix(t, "```", "json");
    }
  }

  /** A reply fenced as "```json … ```" gives back the stripped body. */
  lemma CleanJsonFence(body: string)
    ensures CleanJson("```json" + body + "```") == Strip(body)
  {
    var t := "```json" + body + "```";
    assert t[0] == '`' && t[|t| - 1] == '`';
    StripTrimmed(t);
    assert StartsWith(t, "```json") by { assert t[..7] == "```json"; }
    var u := t[7..];
    assert u == body + "```";
    assert EndsWith(u, "```") by { assert u[|u| - 3..] == "```"; }
    assert u[..|u| - 3] == body;
  }

  /** A reply fenced as "``` … ```" whose body does not start with "json" gives back
      the stripped body. */
  lemma CleanPlainFence(body: string)
    requires !StartsWith(body, "json")
    ensures CleanJson("```" + body + "```") == Strip(body)
  {
    var t := "```" + body + "```";
    assert t[0] == '`' && t[|t| - 1] == '`';
    StripTrimmed(t);
    assert !StartsWith(t, "```json") by {
      if |body| >= 4 {
        assert t[..7][3..7] == body[..4];
      } else if |t| >= 7 {
        assert t[..7][3 + |body|] == '`';
      }
    }
    assert StartsWith(t, "```") by { assert t[..3] == "```"; }
    var u := t[3..];
    assert u == body + "```";
    assert EndsWith(u, "```") by { assert u[|u| - 3..] == "```"; }
    assert u[..|u| - 3] == body;
  }

  // ---------------------------------------------------------------- fallback summary

  /** An attribute and the phrase it contributes. */
  datatype Cue = Cue(key: string, text: string)

  /** `getp(k)`: the `"predicted"` flag of a record, or the raw value; `None` when absent. */
  function GetP(d: Dict<Value>, k: string): Value {
    match Get(d, k)
    case None => NoneVal
    case Some(v) => if v.DictVal? then GetOrNone(v.entries, "predicted") else v
  }

  /** The phrases whose attribute `is True`: exactly the boolean `True`, so a raw 1
      does not count. */
  function TrueCues(cues: seq<Cue>, d: Dict<Value>): (r: seq<string>)
    ensures |r| <= |cues|
  {
    if cues == [] then []
    else (if GetP(d, cues[0].key) == BoolVal(true) then [cues[0].text] else []) + TrueCues(cues[1..], d)
  }

  const TraitCues := [
    Cue("attractive", "attractive features"),
    Cue("sharp_jawline", "a defined jawline"),
    Cue("high_cheekbones", "high cheekbones"),
    Cue("big_eyes", "expressive eyes"),
    Cue("sharp_nose", "a sharp nose"),
    Cue("well_groomed", "well-groomed appearance")
  ]

  const ExtraCues := [
    Cue("oily_skin", "Consider oil-control skincare for balance."),
    Cue("curly_hair", "Curl-enhancing care can improve definition.")
  ]

  /** "Your image has been analyzed for key facial attributes.", written in two parts. */
  const NeutralCore := "Your image has been analyzed" + " for key facial attributes."
  const SummaryFailed := "Your facial attributes have been analyzed and summarized."

  /** "male" for `True`, "female" for `False`, nothing for any other value. */
  function GenderBit(d: Dict<Value>): seq<string> {
    if GetP(d, "male") == BoolVal(true) then ["male"]
    else if GetP(d, "male") == BoolVal(false) then ["female"]
    else []
  }

  /** The phrases of the fallback summary, in source order. */
  function SummaryAttrs(d: Dict<Value>): seq<string> {
    GenderBit(d) + TrueCues(TraitCues, d)
  }

  /** The join as the source writes it: `", ".join(attrs[:-1]) + (" and " + attrs[-1]
      if attrs else "")`, which for a single phrase gives `" and " + phrase`. */
  function BitsAsWritten(attrs: seq<string>): string {
    if attrs == [] then "" else Join(", ", attrs[..|attrs| - 1]) + " and " + attrs[|attrs| - 1]
  }

  /** The evidently intended join: the "a, b and c" enumeration, a single phrase on its own. */
  function Bits(attrs: seq<string>): string {
    if attrs == [] then "" else AttributeInterpreter.Enumerate(attrs)
  }

  /** As written, one phrase reads `" and " + phrase`: the sentence becomes
      "You appear  and male." with a doubled space. */
  lemma BitsAsWrittenSingle(x: string)
    ensures BitsAsWritten([x]) == " and " + x
    ensures "You appear " + BitsAsWritten([x]) + "." == "You appear " + " and " + x + "."
  {
    assert [x][..0] == [];
  }

  /** The corrected join names a single phrase on its own and agrees with the source
      whenever there are two or more phrases. */
  lemma BitsCorrected(attrs: seq<string>)
    ensures |attrs| == 1 ==> Bits(attrs) == attrs[0]
    ensures |attrs| >= 2 ==> Bits(attrs) == BitsAsWritten(attrs)
    ensures Bits(attrs) == "" <==> attrs == [] || (|attrs| == 1 && attrs[0] == "")
  {
  }

  /** The summary built around the joined phrases `bits`: "You appear {bits}." (the
      neutral sentence when `bits` is empty), the extra sentences after it, stripped. */
  function SummaryText(bits: string, d: Dict<Value>): string {
    var core := if bits != "" then "You appear " + bits + "." else NeutralCore;
    Strip(core + " " + Join(" ", TrueCues(ExtraCues, d)))
  }

  /** `_local_summary(data)` as written, with the source's join. A value that is not a
      dict makes `data.get` raise, which gives the fixed failure sentence. */
  function LocalSummary(data: Value): string {
    if !data.DictVal? then SummaryFailed
    else SummaryText(BitsAsWritten(SummaryAttrs(data.entries)), data.entries)
  }

  /** `_local_summary(data)` with the evidently intended join. */
  function LocalSummaryCorrected(data: Value): string {
    if !data.DictVal? then SummaryFailed
    else SummaryText(Bits(SummaryAttrs(data.entries)), data.entries)
  }

  /** With nothing to report the summary, as written and corrected, is the neutral sentence. */
  lemma LocalSummaryNeutral(d: Dict<Value>)
    requires SummaryAttrs(d) == [] && TrueCues(ExtraCues, d) == []
    ensures LocalSummary(DictVal(d)) == NeutralCore
    ensures LocalSummaryCorrected(DictVal(d)) == NeutralCore
  {
    var core := NeutralCore;
    assert Join(" ", []) == "";
    assert core + " " + "" == core + " ";
    NeutralCoreTrimmed();
  }

  /** The neutral sentence neither starts nor ends with whitespace. */
  lemma NeutralCoreTrimmed()
    ensures Strip(NeutralCore + " ") == NeutralCore
  {
    StripTrimmed(NeutralCore);
  }

  /** Non-empty joined phrases and no extra sentence give just "You appear {bits}.". */
  lemma SummaryTextAlone(bits: string, d: Dict<Value>)
    requires bits != "" && TrueCues(ExtraCues, d) == []
    ensures SummaryText(bits, d) == "You appear " + bits + "."
  {
    assert Join(" ", TrueCues(ExtraCues, d)) == "";
    AppearTrimmed(bits);
  }

  /** As written, one phrase gives a sentence with " and " before it: `male` alone
      gives "You appear  and male.". */
  lemma LocalSummaryOnePhrase(d: Dict<Value>)
    requires |SummaryAttrs(d)| == 1 && TrueCues(ExtraCues, d) == []
    ensures LocalSummary(DictVal(d)) == "You appear " + " and " + SummaryAttrs(d)[0] + "."
  {
    var x := SummaryAttrs(d)[0];
    assert SummaryAttrs(d) == [x];
    BitsAsWrittenSingle(x);
    SummaryTextAlone(" and " + x, d);
  }

  /** With one phrase the corrected summary names that phrase: `male` alone gives
      "You appear male.". */
  lemma LocalSummaryCorrectedOnePhrase(d: Dict<Value>)
    requires |SummaryAttrs(d)| == 1 && TrueCues(ExtraCues, d) == []
    ensures LocalSummaryCorrected(DictVal(d)) == "You appear " + SummaryAttrs(d)[0] + "."
  {
    var x := SummaryAttrs(d)[0];
    BitsCorrected(SummaryAttrs(d));
    OnePhraseNonEmpty(d);
    SummaryTextAlone(x, d);
  }

  /** Every phrase of the summary is a non-empty word or phrase. */
  lemma OnePhraseNonEmpty(d: Dict<Value>)
    requires |SummaryAttrs(d)| == 1
    ensures SummaryAttrs(d)[0] != ""
  {
    if GenderBit(d) == [] {
      var t := SummaryAttrs(d)[0];
      assert t in TrueCues(TraitCues, d);
      TrueCuesMember(TraitCues, d, t);
    }
  }

  /** The sentence "You appear X." with the separator space after it strips to itself. */
  lemma AppearTrimmed(x: string)
    ensures Strip("You appear " + x + "." + " " + "") == "You appear " + x + "."
  {
    var core := "You appear " + x + ".";
    assert core[0] == 'Y' && core[|core| - 1] == '.';
    StripTrimmed(core);
    assert core + " " + "" == core + " ";
  }

  /** Only the boolean `True` counts: a gender or trait given as the integer 1 adds
      no phrase. */
  lemma RawOneDoesNotCount(d: Dict<Value>, k: string)
    requires GetP(d, k) == IntVal(1)
    ensures k == "male" ==> GenderBit(d) == []
    ensures forall i :: 0 <= i < |TraitCues| && TraitCues[i].key == k ==> TraitCues[i].text !in TrueCues(TraitCues, d)
  {
    forall i | 0 <= i < |TraitCues| && TraitCues[i].key == k
      ensures TraitCues[i].text !in TrueCues(TraitCues, d)
    {
      TrueCuesMember(TraitCues, d, TraitCues[i].text);
      DistinctTraitTexts(i);
    }
  }

  /** A phrase is chosen only if some cue with that phrase holds. */
  lemma {:induction false} TrueCuesMember(cues: seq<Cue>, d: Dict<Value>, t: string)
    ensures t in TrueCues(cues, d) ==> exists i :: 0 <= i < |cues| && cues[i].text == t && GetP(d, cues[i].key) == BoolVal(true)
  {
    if cues != [] {
      TrueCuesMember(cues[1..], d, t);
      if t in TrueCues(cues, d) && !(cues[0].text == t && GetP(d, cues[0].key) == BoolVal(true)) {
        var i :| 0 <= i < |cues[1..]| && cues[1..][i].text == t && GetP(d, cues[1..][i].key) == BoolVal(true);
        assert cues[i + 1] == cues[1..][i];
      }
    }
  }

  lemma DistinctTraitTexts(i: nat)
    requires i < |TraitCues|
    ensures forall j :: 0 <= j < |TraitCues| && TraitCues[j].text == TraitCues[i].text ==> j == i
  {
  }

  // ---------------------------------------------------------------- fallback content

  /** `pred(k)`: the truthiness of a record's `"predicted"` flag, or of the raw value;
      an absent key is false. */
  predicate Pred(d: Dict<Value>, k: string) {
    match Get(d, k)
    case None => false
    case Some(v) => if v.DictVal? then Truthy(GetOrNone(v.entries, "predicted")) else Truthy(v)
  }

  /** The sentences whose attribute `pred` holds, in table order. */
  function PredCues(cues: seq<Cue>, d: Dict<Value>): (r: seq<string>)
    ensures |r| <= |cues|
  {
    if cues == [] then []
    else (if Pred(d, cues[0].key) then [cues[0].text] else []) + PredCues(cues[1..], d)
  }

  const SkincareCues := [
    Cue("oily_skin", "Use an oil-free cleanser and non-comedogenic moisturizer."),
    Cue("dark_circles", "Consider eye cream with caffeine and ensure proper sleep.")
  ]
  const GroomingCues := [
    Cue("curly_hair", "Use sulfate-free shampoo and a curl-defining leave-in."),
    Cue("has_beard", "Apply beard oil and maintain regular trims for shape.")
  ]
  const PositiveCues := [
    Cue("sharp_jawline", "Well-defined jawline enhances facial structure."),
    Cue("big_eyes", "Expressive eyes draw positive attention."),
    Cue("attractive", "Overall attractive facial balance.")
  ]
  const ImproveCues := [
    Cue("patchy_beard", "Even growth can improve with regular grooming and patience."),
    Cue("receeding_hairline", "Consult a specialist and consider volumizing hairstyles.")
  ]

  const SkincareDefault := "Maintain a consistent, gentle skincare routine."
  const GroomingDefault := "Keep a regular grooming routine aligned with your hair type."
  const PositiveDefault := "Multiple strengths observed across features."
  const ImproveDefault := "No major areas of improvement identified."
  const Disclaimer := "Recommendations are informational and not medical advice."

  /** The six keys of a content dict, in the order the fallback writes them. */
  const ContentKeys := [
    "skincare_list", "grooming_list", "attractiveness_comment",
    "positive_features_list", "features_to_improve_list", "other_observations_list"
  ]

  /** `xs[:n]`. */
  function Take(xs: seq<string>, n: nat): (r: seq<string>)
    ensures |r| <= n && |r| <= |xs| && r == xs[..|r|]
    ensures |xs| <= n ==> r == xs
    ensures |xs| > n ==> r == xs[..n]
  {
    if |xs| <= n then xs else xs[..n]
  }

  /** `xs or [default]`. */
  function OrDefault(xs: seq<string>, default: string): (r: seq<string>)
    ensures r != []
    ensures xs == [] ==> r == [default]
    ensures xs != [] ==> r == xs
  {
    if xs == [] then [default] else xs
  }

  /** The content dict built from the five buckets: each capped, and each but the
      last replaced by its default sentence when empty. */
  function ContentDict(skincare: seq<string>, grooming: seq<string>, positives: seq<string>,
                       improve: seq<string>, other: seq<string>): (c: Dict<Value>)
    ensures Keys(c) == ContentKeys
  {
    var a := StrList(OrDefault(Take(skincare, 4), SkincareDefault));
    var b := StrList(OrDefault(Take(grooming, 4), GroomingDefault));
    var p := StrList(OrDefault(Take(positives, 5), PositiveDefault));
    var i := StrList(OrDefault(Take(improve, 4), ImproveDefault));
    var o := StrList(Take(other, 3));
    ContentKeysOf(a, b, StrVal(""), p, i, o);
    [
      ("skincare_list", a),
      ("grooming_list", b),
      ("attractiveness_comment", StrVal("")),
      ("positive_features_list", p),
      ("features_to_improve_list", i),
      ("other_observations_list", o)
    ]
  }

  /** Six values under the content keys, in order, make a dict with exactly those keys. */
  lemma ContentKeysOf(a: Value, b: Value, c: Value, p: Value, i: Value, o: Value)
    ensures Keys([("skincare_list", a), ("grooming_list", b), ("attractiveness_comment", c),
                  ("positive_features_list", p), ("features_to_improve_list", i),
                  ("other_observations_list", o)]) == ContentKeys
  {
    var dict := [("skincare_list", a), ("grooming_list", b), ("attractiveness_comment", c),
                 ("positive_features_list", p), ("features_to_improve_list", i),
                 ("other_observations_list", o)];
    assert Keys(dict) == [dict[0].0, dict[1].0, dict[2].0, dict[3].0, dict[4].0, dict[5].0];
  }

  /** The dict `_local_content(data)` returns. */
  function LocalContentSpec(d: Dict<Value>): Dict<Value> {
    ContentDict(PredCues(SkincareCues, d), PredCues(GroomingCues, d), PredCues(PositiveCues, d),
                PredCues(ImproveCues, d), [Disclaimer])
  }

  lemma PredCuesOfTwo(a: Cue, b: Cue, d: Dict<Value>)
    ensures PredCues([a, b], d) == (if Pred(d, a.key) then [a.text] else []) + (if Pred(d, b.key) then [b.text] else [])
  {
    assert [a, b][1..] == [b];
    assert [b][1..] == [];
    assert PredCues([b], d) == (if Pred(d, b.key) then [b.text] else []) + PredCues([], d);
  }

  lemma PredCuesOfThree(a: Cue, b: Cue, c: Cue, d: Dict<Value>)
    ensures PredCues([a, b, c], d) ==
              (if Pred(d, a.key) then [a.text] else []) + (if Pred(d, b.key) then [b.text] else [])
              + (if Pred(d, c.key) then [c.text] else [])
  {
    assert [a, b, c][1..] == [b, c];
    PredCuesOfTwo(b, c, d);
  }

  /** `_local_content(data)`: five buckets filled by the source's `if` chain, capped,
      defaulted and returned as the six-key content dict. */
  method LocalContent(d: Dict<Value>) returns (content: Dict<Value>)
    ensures content == LocalContentSpec(d)
  {
    var skincare := SkincareBucket(d);
    var grooming := GroomingBucket(d);
    var positives := PositiveBucket(d);
    var improve := ImproveBucket(d);
    var other: seq<string> := [];
    other := other + [Disclaimer];
    assert other == [Disclaimer];
    content := ContentDict(skincare, grooming, positives, improve, other);
  }

  /** The skincare part of the `if` chain. */
  method SkincareBucket(d: Dict<Value>) returns (skincare: seq<string>)
    ensures skincare == PredCues(SkincareCues, d)
  {
    skincare := [];
    if Pred(d, "oily_skin") {
      skincare := skincare + [SkincareCues[0].text];
    }
    if Pred(d, "dark_circles") {
      skincare := skincare + [SkincareCues[1].text];
    }
    PredCuesOfTwo(SkincareCues[0], SkincareCues[1], d);
  }

  /** The grooming part of the `if` chain. */
  method GroomingBucket(d: Dict<Value>) returns (grooming: seq<string>)
    ensures grooming == PredCues(GroomingCues, d)
  {
    grooming := [];
    if Pred(d, "curly_hair") {
      grooming := grooming + [GroomingCues[0].text];
    }
    if Pred(d, "has_beard") {
      grooming := grooming + [GroomingCues[1].text];
    }
    PredCuesOfTwo(GroomingCues[0], GroomingCues[1], d);
  }

  /** The positive-features part of the `if` chain. */
  method PositiveBucket(d: Dict<Value>) returns (positives: seq<string>)
    ensures positives == PredCues(PositiveCues, d)
  {
    positives := [];
    if Pred(d, "sharp_jawline") {
      positives := positives + [PositiveCues[0].text];
    }
    if Pred(d, "big_eyes") {
      positives := positives + [PositiveCues[1].text];
    }
    if Pred(d, "attractive") {
      positives := positives + [PositiveCues[2].text];
    }
    PredCuesOfThree(PositiveCues[0], PositiveCues[1], PositiveCues[2], d);
  }

  /** The features-to-improve part of the `if` chain. */
  method ImproveBucket(d: Dict<Value>) returns (improve: seq<string>)
    ensures improve == PredCues(ImproveCues, d)
  {
    improve := [];
    if Pred(d, "patchy_beard") {
      improve := improve + [ImproveCues[0].text];
    }
    if Pred(d, "receeding_hairline") {
      improve := improve + [ImproveCues[1].text];
    }
    PredCuesOfTwo(ImproveCues[0], ImproveCues[1], d);
  }

  lemma ContentKeysDistinct()
    ensures forall i, j :: 0 <= i < j < |ContentKeys| ==> ContentKeys[i] != ContentKeys[j]
  {
  }

  /** A two-cue bucket under a cap of at least two is never cut: it is its default
      sentence exactly when neither cue is predicted, and its cue sentences otherwise. */
  lemma BucketOfTwo(a: Cue, b: Cue, d: Dict<Value>, n: nat, default: string)
    requires n >= 2
    ensures OrDefault(Take(PredCues([a, b], d), n), default) ==
              if !Pred(d, a.key) && !Pred(d, b.key) then [default] else PredCues([a, b], d)
  {
    PredCuesOfTwo(a, b, d);
  }

  /** A three-cue bucket under a cap of at least three is never cut: it is its default
      sentence exactly when no cue is predicted, and its cue sentences otherwise. */
  lemma BucketOfThree(a: Cue, b: Cue, c: Cue, d: Dict<Value>, n: nat, default: string)
    requires n >= 3
    ensures OrDefault(Take(PredCues([a, b, c], d), n), default) ==
              if !Pred(d, a.key) && !Pred(d, b.key) && !Pred(d, c.key) then [default]
              else PredCues([a, b, c], d)
  {
    PredCuesOfThree(a, b, c, d);
  }

  /** The fallback content always has exactly the six keys in order, an empty
      attractiveness comment and the disclaimer as the only other observation; no
      cap ever cuts a bucket, and each of the four advice lists is its default
      sentence exactly when none of its attributes is predicted, and its predicted
      cue sentences in table order otherwise. */
  lemma LocalContentShape(d: Dict<Value>)
    ensures Keys(LocalContentSpec(d)) == ContentKeys && DistinctKeys(LocalContentSpec(d))
    ensures Get(LocalContentSpec(d), "attractiveness_comment") == Some(StrVal(""))
    ensures Get(LocalContentSpec(d), "other_observations_list") == Some(StrList([Disclaimer]))
    ensures Get(LocalContentSpec(d), "skincare_list") ==
              Some(StrList(if !Pred(d, "oily_skin") && !Pred(d, "dark_circles") then [SkincareDefault]
                           else PredCues(SkincareCues, d)))
    ensures Get(LocalContentSpec(d), "grooming_list") ==
              Some(StrList(if !Pred(d, "curly_hair") && !Pred(d, "has_beard") then [GroomingDefault]
                           else PredCues(GroomingCues, d)))
    ensures Get(LocalContentSpec(d), "positive_features_list") ==
              Some(StrList(if !Pred(d, "sharp_jawline") && !Pred(d, "big_eyes") && !Pred(d, "attractive")
                           then [PositiveDefault] else PredCues(PositiveCues, d)))
    ensures Get(LocalContentSpec(d), "features_to_improve_list") ==
              Some(StrList(if !Pred(d, "patchy_beard") && !Pred(d, "receeding_hairline") then [ImproveDefault]
                           else PredCues(ImproveCues, d)))
  {
    ContentDictShape(PredCues(SkincareCues, d), PredCues(GroomingCues, d), PredCues(PositiveCues, d),
                     PredCues(ImproveCues, d), [Disclaimer]);
    LocalSkincare(d);
    LocalGrooming(d);
    LocalPositives(d);
    LocalImprove(d);
  }

  /** The skincare part of `LocalContentShape`. */
  lemma LocalSkincare(d: Dict<Value>)
    ensures Get(LocalContentSpec(d), "skincare_list") ==
              Some(StrList(if !Pred(d, "oily_skin") && !Pred(d, "dark_circles") then [SkincareDefault]
                           else PredCues(SkincareCues, d)))
  {
    ContentDictShape(PredCues(SkincareCues, d), PredCues(GroomingCues, d), PredCues(PositiveCues, d),
                     PredCues(ImproveCues, d), [Disclaimer]);
    assert SkincareCues == [SkincareCues[0], SkincareCues[1]];
    BucketOfTwo(SkincareCues[0], SkincareCues[1], d, 4, SkincareDefault);
  }

  /** The grooming part of `LocalContentShape`. */
  lemma LocalGrooming(d: Dict<Value>)
    ensures Get(LocalContentSpec(d), "grooming_list") ==
              Some(StrList(if !Pred(d, "curly_hair") && !Pred(d, "has_beard") then [GroomingDefault]
                           else PredCues(GroomingCues, d)))
  {
    ContentDictShape(PredCues(SkincareCues, d), PredCues(GroomingCues, d), PredCues(PositiveCues, d),
                     PredCues(ImproveCues, d), [Disclaimer]);
    assert GroomingCues == [GroomingCues[0], GroomingCues[1]];
    BucketOfTwo(GroomingCues[0], GroomingCues[1], d, 4, GroomingDefault);
  }

  /** The positive-features part of `LocalContentShape`. */
  lemma LocalPositives(d: Dict<Value>)
    ensures Get(LocalContentSpec(d), "positive_features_list") ==
              Some(StrList(if !Pred(d, "sharp_jawline") && !Pred(d, "big_eyes") && !Pred(d, "attractive")
                           then [PositiveDefault] else PredCues(PositiveCues, d)))
  {
    ContentDictShape(PredCues(SkincareCues, d), PredCues(GroomingCues, d), PredCues(PositiveCues, d),
                     PredCues(ImproveCues, d), [Disclaimer]);
    assert PositiveCues == [PositiveCues[0], PositiveCues[1], PositiveCues[2]];
    BucketOfThree(PositiveCues[0], PositiveCues[1], PositiveCues[2], d, 5, PositiveDefault);
  }

  /** The features-to-improve part of `LocalContentShape`. */
  lemma LocalImprove(d: Dict<Value>)
    ensures Get(LocalContentSpec(d), "features_to_improve_list") ==
              Some(StrList(if !Pred(d, "patchy_beard") && !Pred(d, "receeding_hairline") then [ImproveDefault]
                           else PredCues(ImproveCues, d)))
  {
    ContentDictShape(PredCues(SkincareCues, d), PredCues(GroomingCues, d), PredCues(PositiveCues, d),
                     PredCues(ImproveCues, d), [Disclaimer]);
    assert ImproveCues == [ImproveCues[0], ImproveCues[1]];
    BucketOfTwo(ImproveCues[0], ImproveCues[1], d, 4, ImproveDefault);
  }

  /** With no attribute predicted (an empty attribute dict, say) every advice list of
      the fallback content is its default sentence. */
  lemma LocalContentDefaults(d: Dict<Value>)
    requires forall k :: !Pred(d, k)
    ensures Get(LocalContentSpec(d), "skincare_list") == Some(StrList([SkincareDefault]))
    ensures Get(LocalContentSpec(d), "grooming_list") == Some(StrList([GroomingDefault]))
    ensures Get(LocalContentSpec(d), "positive_features_list") == Some(StrList([PositiveDefault]))
    ensures Get(LocalContentSpec(d), "features_to_improve_list") == Some(StrList([ImproveDefault]))
  {
    LocalContentShape(d);
    assert !Pred(d, "oily_skin") && !Pred(d, "dark_circles") && !Pred(d, "curly_hair") && !Pred(d, "has_beard");
    assert !Pred(d, "sharp_jawline") && !Pred(d, "big_eyes") && !Pred(d, "attractive");
    assert !Pred(d, "patchy_beard") && !Pred(d, "receeding_hairline");
  }

  /** The content dict has its six keys once each, the empty attractiveness comment,
      and each list under its key capped (and, for the four advice lists, defaulted). */
  lemma ContentDictShape(skincare: seq<string>, grooming: seq<string>, positives: seq<string>,
                         improve: seq<string>, other: seq<string>)
    ensures var c := ContentDict(skincare, grooming, positives, improve, other);
            DistinctKeys(c)
            && Get(c, "skincare_list") == Some(StrList(OrDefault(Take(skincare, 4), SkincareDefault)))
            && Get(c, "grooming_list") == Some(StrList(OrDefault(Take(grooming, 4), GroomingDefault)))
            && Get(c, "attractiveness_comment") == Some(StrVal(""))
            && Get(c, "positive_features_list") == Some(StrList(OrDefault(Take(positives, 5), PositiveDefault)))
            && Get(c, "features_to_improve_list") == Some(StrList(OrDefault(Take(improve, 4), ImproveDefault)))
            && Get(c, "other_observations_list") == Some(StrList(Take(other, 3)))
  {
    var c := ContentDict(skincare, grooming, positives, improve, other);
    ContentKeysDistinct();
    assert forall i :: 0 <= i < |c| ==> c[i].0 == ContentKeys[i] by {
      forall i | 0 <= i < |c| ensures c[i].0 == ContentKeys[i] {
        assert Keys(c)[i] == c[i].0;
      }
    }
    GetDistinct(c, 0);
    GetDistinct(c, 1);
    GetDistinct(c, 2);
    GetDistinct(c, 3);
    GetDistinct(c, 4);
    GetDistinct(c, 5);
  }

  // ---------------------------------------------------------------- reply completion

  /** The value a missing key gets: `[]` for a `_list` key, `""` otherwise. */
  function DefaultFor(key: string): Value {
    if EndsWith(key, "_list") then ListVal([]) else StrVal("")
  }

  /** The entries completion adds: each key of `keys` that `content` lacks, with its default. */
  function MissingEntries(keys: seq<string>, content: Dict<Value>): (m: Dict<Value>)
    ensures forall k :: HasKey(m, k) ==> k in keys && !HasKey(content, k)
  {
    if keys == [] then []
    else
      assert forall k :: k in keys[1..] ==> k in keys;
      var m := if HasKey(content, keys[0]) then [] else [(keys[0], DefaultFor(keys[0]))];
      var rest := MissingEntries(keys[1..], content);
      KeysAppend(m, rest);
      assert Keys(m) == if HasKey(content, keys[0]) then [] else [keys[0]];
      m + rest
  }

  lemma {:induction false} MissingEntriesSnoc(keys: seq<string>, k: string, content: Dict<Value>)
    ensures MissingEntries(keys + [k], content) ==
              MissingEntries(keys, content) + (if HasKey(content, k) then [] else [(k, DefaultFor(k))])
  {
    if keys == [] {
      assert ([] + [k])[1..] == [];
    } else {
      var rest := keys[1..];
      assert (keys + [k])[0] == keys[0] && (keys + [k])[1..] == rest + [k];
      var first := if HasKey(content, keys[0]) then [] else [(keys[0], DefaultFor(keys[0]))];
      var last := if HasKey(content, k) then [] else [(k, DefaultFor(k))];
      assert MissingEntries(keys + [k], content) == first + MissingEntries(rest + [k], content);
      MissingEntriesSnoc(rest, k, content);
      ConcatAssoc(first, MissingEntries(rest, content), last);
    }
  }


  /** The key-completion loop of `generate_content` on a parsed dict. */
  method CompleteContent(content: Dict<Value>) returns (r: Dict<Value>)
    ensures r == content + MissingEntries(ContentKeys, content)
  {
    r := content;
    var i := 0;
    while i < |ContentKeys|
      invariant 0 <= i <= |ContentKeys|
      invariant r == content + MissingEntries(ContentKeys[..i], content)
    {
      var key := ContentKeys[i];
      ghost var added := MissingEntries(ContentKeys[..i], content);
      CompleteStep(content, i);
      if !HasKey(r, key) {
        if EndsWith(key, "_list") {
          r := Put(r, key, ListVal([]));
        } else {
          r := Put(r, key, StrVal(""));
        }
        AppendOne(content, added, (key, DefaultFor(key)));
      }
      i := i + 1;
    }
    assert ContentKeys[..i] == ContentKeys;
  }

  /** Adding an entry after the completed part extends the added entries. */
  lemma AppendOne(content: Dict<Value>, added: Dict<Value>, entry: (string, Value))
    ensures (content + added) + [entry] == content + (added + [entry])
  {
  }

  /** One loop step: the next required key is in the partly completed dict exactly
      when it was in the reply, and completing it extends the added entries by one. */
  lemma CompleteStep(content: Dict<Value>, i: nat)
    requires i < |ContentKeys|
    ensures var key := ContentKeys[i];
            (HasKey(content + MissingEntries(ContentKeys[..i], content), key) <==> HasKey(content, key))
            && MissingEntries(ContentKeys[..i + 1], content) ==
                 MissingEntries(ContentKeys[..i], content) + (if HasKey(content, key) then [] else [(key, DefaultFor(key))])
  {
    var key := ContentKeys[i];
    MissingEntriesSnoc(ContentKeys[..i], key, content);
    assert ContentKeys[..i + 1] == ContentKeys[..i] + [key];
    var added := MissingEntries(ContentKeys[..i], content);
    KeysAppend(content, added);
    ContentKeysDistinct();
    assert key !in ContentKeys[..i];
  }

  /** Completion adds every required key, changes no entry that was there, and gives
      each missing key its default. */
  lemma CompletionProperties(content: Dict<Value>, k: string)
    ensures var r := content + MissingEntries(ContentKeys, content);
            r[..|content|] == content
            && (k in ContentKeys ==> HasKey(r, k))
            && (HasKey(content, k) ==> Get(r, k) == Get(content, k))
            && (k in ContentKeys && !HasKey(content, k) ==> Get(r, k) == Some(DefaultFor(k)))
            && (k !in ContentKeys ==> Get(r, k) == Get(content, k))
  {
    var m := MissingEntries(ContentKeys, content);
    GetAppend(content, m, k);
    KeysAppend(content, m);
    if k in ContentKeys && !HasKey(content, k) {
      MissingEntriesHas(ContentKeys, content, k);
    }
  }

  lemma {:induction false} MissingEntriesHas(keys: seq<string>, content: Dict<Value>, k: string)
    requires k in keys && !HasKey(content, k)
    ensures Get(MissingEntries(keys, content), k) == Some(DefaultFor(k))
  {
    var m := if HasKey(content, keys[0]) then [] else [(keys[0], DefaultFor(keys[0]))];
    var rest := MissingEntries(keys[1..], content);
    GetAppend(m, rest, k);
    if keys[0] != k {
      MissingEntriesHas(keys[1..], content, k);
      assert !HasKey(m, k) by { assert Keys(m) == [] || Keys(m) == [keys[0]]; }
    } else {
      assert Keys(m) == [k];
    }
  }

  /** Whether a parsed reply passes the completion loop without raising, and so is
      returned: a dict always does (it is completed); a list or a string only when
      every required key is already `in` it (an assignment to it would raise); any
      other value raises at the first `in`. */
  predicate Answers(content: Value, key: string) {
    match content
    case DictVal(entries) => HasKey(entries, key)
    case ListVal(items) => StrVal(key) in items
    case StrVal(s) => Contains(s, key)
    case _ => false
  }

  /** The content `generate_content` returns for a parsed reply (`None`: the parser raised). */
  function ContentFor(parsed: Option<Value>, d: Dict<Value>): Value {
    match parsed
    case None => DictVal(LocalContentSpec(d))
    case Some(v) =>
      if v.DictVal? then DictVal(v.entries + MissingEntries(ContentKeys, v.entries))
      else if forall i :: 0 <= i < |ContentKeys| ==> Answers(v, ContentKeys[i]) then v
      else DictVal(LocalContentSpec(d))
  }

  /** `generate_content(data, feature_descriptions)`: `enabled` is `GEMINI_ENABLED and
      genai is not None`, `reply` the model's text (`None` when the call raised) and
      `parse` the JSON parser. */
  method GenerateContent(enabled: bool, reply: Option<string>, parse: string -> Option<Value>, d: Dict<Value>)
    returns (content: Value)
    ensures content == if enabled && reply.Some? then ContentFor(parse(CleanJson(Strip(reply.value))), d)
                       else DictVal(LocalContentSpec(d))
  {
    if enabled && reply.Some? {
      var rawResponse := Strip(reply.value);
      var cleaned := CleanJsonResponse(rawResponse);
      var parsed := parse(cleaned);
      content := ContentOfReply(parsed, d);
      return;
    }
    var local := LocalContent(d);
    content := DictVal(local);
  }

  /** What `generate_content` makes of the parsed reply (`None` when it is not JSON):
      a dict is completed, a value that answers every key is kept, anything else
      falls back to the local content. */
  method ContentOfReply(parsed: Option<Value>, d: Dict<Value>) returns (content: Value)
    ensures content == ContentFor(parsed, d)
  {
    if parsed.Some? {
      var value := parsed.value;
      if value.DictVal? {
        var completed := CompleteContent(value.entries);
        return DictVal(completed);
      }
      var i := 0;
      while i < |ContentKeys|
        invariant 0 <= i <= |ContentKeys|
        invariant forall j :: 0 <= j < i ==> Answers(value, ContentKeys[j])
      {
        if !Answers(value, ContentKeys[i]) {
          var local := LocalContent(d);
          return DictVal(local);
        }
        i := i + 1;
      }
      return value;
    }
    var local := LocalContent(d);
    content := DictVal(local);
  }

  /** Whatever the model replies, the content answers every required key: it is the
      completed dict, a list or string that already holds every key, or the fallback. */
  lemma ContentAnswersAll(parsed: Option<Value>, d: Dict<Value>, k: string)
    requires k in ContentKeys
    ensures Answers(ContentFor(parsed, d), k)
  {
    if parsed.Some? && parsed.value.DictVal? {
      CompletionProperties(parsed.value.entries, k);
    } else if parsed.Some? && forall i :: 0 <= i < |ContentKeys| ==> Answers(parsed.value, ContentKeys[i]) {
      var i :| 0 <= i < |ContentKeys| && ContentKeys[i] == k;
    } else {
      LocalContentAnswers(d, k);
    }
  }

  /** The fallback content answers every required key. */
  lemma LocalContentAnswers(d: Dict<Value>, k: string)
    requires k in ContentKeys
    ensures Answers(DictVal(LocalContentSpec(d)), k)
  {
    var c := LocalContentSpec(d);
    assert Keys(c) == ContentKeys;
  }

  // ---------------------------------------------------------------- list formatting

  const NoItemsLine := "<li>No specific recommendations at this time</li>"

  /** The `<li>` lines: each item that is not blank after stripping, stripped and
      wrapped, in order. */
  function ListLines(items: seq<string>): (lines: seq<string>)
    ensures |lines| <= |items|
  {
    if items == [] then []
    else (if Strip(items[0]) != "" then ["<li>" + Strip(items[0]) + "</li>"] else []) + ListLines(items[1..])
  }

  /** `format_list_items(items)` on a list of strings. */
  method FormatListItems(items: seq<string>) returns (html: string)
    ensures html == if ListLines(items) == [] then NoItemsLine else Join("\n", ListLines(items))
  {
    if |items| == 0 {
      return NoItemsLine;
    }
    var formattedItems: seq<string> := [];
    var i := 0;
    while i < |items|
      invariant 0 <= i <= |items|
      invariant formattedItems == ListLines(items[..i])
    {
      var cleanedItem := Strip(items[i]);
      ListLinesSnoc(items[..i], items[i]);
      assert items[..i + 1] == items[..i] + [items[i]];
      if cleanedItem != "" {
        formattedItems := formattedItems + ["<li>" + cleanedItem + "</li>"];
      }
      i := i + 1;
    }
    assert items[..i] == items;
    html := if formattedItems != [] then Join("\n", formattedItems) else NoItemsLine;
  }

  lemma {:induction false} ListLinesSnoc(items: seq<string>, x: string)
    ensures ListLines(items + [x]) == ListLines(items) + (if Strip(x) != "" then ["<li>" + Strip(x) + "</li>"] else [])
  {
    if items == [] {
      assert ([] + [x])[1..] == [];
    } else {
      assert (items + [x])[1..] == items[1..] + [x];
      ListLinesSnoc(items[1..], x);
    }
  }

  /** The placeholder is produced exactly when every item is blank (or there are none);
      otherwise every line wraps a non-blank stripped item of the input, and every
      non-blank item has its line. */
  lemma ListLinesIff(items: seq<string>)
    ensures ListLines(items) == [] <==> forall i :: 0 <= i < |items| ==> Strip(items[i]) == ""
    ensures forall i :: 0 <= i < |items| && Strip(items[i]) != "" ==> "<li>" + Strip(items[i]) + "</li>" in ListLines(items)
    ensures forall l :: l in ListLines(items) ==> exists i :: 0 <= i < |items| && Strip(items[i]) != "" && l == "<li>" + Strip(items[i]) + "</li>"
  {
    ListLinesEmpty(items);
    ListLinesComplete(items);
    ListLinesSound(items);
  }

  lemma {:induction false} ListLinesEmpty(items: seq<string>)
    ensures ListLines(items) == [] <==> forall i :: 0 <= i < |items| ==> Strip(items[i]) == ""
  {
    if items != [] {
      var rest := items[1..];
      ListLinesEmpty(rest);
      forall i | 0 <= i < |rest| ensures rest[i] == items[i + 1] {
      }
    }
  }

  lemma {:induction false} ListLinesComplete(items: seq<string>)
    ensures forall i :: 0 <= i < |items| && Strip(items[i]) != "" ==> "<li>" + Strip(items[i]) + "</li>" in ListLines(items)
  {
    if items != [] {
      ListLinesComplete(items[1..]);
      forall i | 0 < i < |items| ensures items[i] == items[1..][i - 1] {
      }
    }
  }

  lemma {:induction false} ListLinesSound(items: seq<string>)
    ensures forall l :: l in ListLines(items) ==> exists i :: 0 <= i < |items| && Strip(items[i]) != "" && l == "<li>" + Strip(items[i]) + "</li>"
  {
    if items != [] {
      var rest := items[1..];
      ListLinesSound(rest);
      var head: seq<string> := if Strip(items[0]) != "" then ["<li>" + Strip(items[0]) + "</li>"] else [];
      forall l | l in ListLines(items)
        ensures exists i :: 0 <= i < |items| && Strip(items[i]) != "" && l == "<li>" + Strip(items[i]) + "</li>"
      {
        if l in head {
          assert Strip(items[0]) != "" && l == "<li>" + Strip(items[0]) + "</li>";
        } else {
          assert l in ListLines(rest);
          var i :| 0 <= i < |rest| && Strip(rest[i]) != "" && l == "<li>" + Strip(rest[i]) + "</li>";
          assert items[i + 1] == rest[i];
        }
      }
    }
  }

  // ---------------------------------------------------------------- attractiveness gate

  /** What the report shows of attractiveness: whether the block is hidden, and the comment. */
  datatype Gate = Gate(hidden: bool, comment: Value)

  /** `data.get("attractive", {}).get("probability", 0)`: `None` when it raises (the
      attribute is there but is not a dict). */
  function AttractiveProbability(d: Dict<Value>): Option<Value> {
    match Get(d, "attractive")
    case None => Some(IntVal(0))
    case Some(v) =>
      if !v.DictVal? then None
      else match Get(v.entries, "probability")
        case Some(p) => Some(p)
        case None => Some(IntVal(0))
  }

  /** `content.get("attractiveness_comment", "")`. */
  function CommentOf(entries: Dict<Value>): Value {
    match Get(entries, "attractiveness_comment")
    case Some(c) => c
    case None => StrVal("")
  }

  /** The attractiveness part of `generate_html_report`; `None` when the report raises:
      the probability cannot be read or compared with 0.7, or the content is not a dict. */
  function AttractivenessGate(d: Dict<Value>, content: Value): (g: Option<Gate>)
    ensures g.Some? ==> content.DictVal? && AttractiveProbability(d).Some?
                        && AsNumber(AttractiveProbability(d).value).Some?
  {
    match AttractiveProbability(d)
    case None => None
    case Some(p) =>
      match AsNumber(p)
      case None => None
      case Some(x) =>
        if !content.DictVal? then None
        else if x > 7 as real / 10 as real then
          Some(Gate(false, CommentOf(content.entries)))
        else Some(Gate(true, StrVal("")))
  }

  /** The comment is shown only above a probability of 0.7, strictly; at or below it
      the block is hidden and the comment is empty. */
  lemma GateThreshold(d: Dict<Value>, content: Value)
    requires AttractivenessGate(d, content).Some?
    ensures var x := AsNumber(AttractiveProbability(d).value).value;
            var g := AttractivenessGate(d, content).value;
            (g.hidden <==> x <= 7 as real / 10 as real)
            && (x <= 7 as real / 10 as real ==> g.comment == StrVal(""))
            && (x > 7 as real / 10 as real ==> g.comment == CommentOf(content.entries))
  {
  }

  /** With no `attractive` attribute the probability is 0: the block is hidden and the
      comment empty, for any content dict. */
  lemma GateMissingAttribute(d: Dict<Value>, entries: Dict<Value>)
    requires !HasKey(d, "attractive")
    ensures AttractivenessGate(d, DictVal(entries)) == Some(Gate(true, StrVal("")))
  {
  }

  /** A content dict whose comment is empty shows an empty comment, whatever the
      probability; the fallback content is one (`LocalContentShape`). */
  lemma GateEmptyComment(d: Dict<Value>, entries: Dict<Value>)
    requires AttractiveProbability(d).Some? && AsNumber(AttractiveProbability(d).value).Some?
    requires Get(entries, "attractiveness_comment") == Some(StrVal(""))
    ensures AttractivenessGate(d, DictVal(entries)).Some?
    ensures AttractivenessGate(d, DictVal(entries)).value.comment == StrVal("")
  {
  }

  /** The fallback content always passes the gate with an empty comment. */
  lemma GateOnLocalContent(d: Dict<Value>)
    requires AttractiveProbability(d).Some? && AsNumber(AttractiveProbability(d).value).Some?
    ensures var c := LocalContentSpec(d);
            AttractivenessGate(d, DictVal(c)).Some? && AttractivenessGate(d, DictVal(c)).value.comment == StrVal("")
  {
    LocalContentShape(d);
    GateEmptyComment(d, LocalContentSpec(d));
  }
}
