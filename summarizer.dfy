/**
 * summarizer.py: the conversion of the classifier's `{"probability", "predicted"}`
 * records to plain 0/1 values, and `generate_summary`, which feeds the converted
 * map to the rule-based interpreter and reports a failure as an error summary.
 */
module Summarizer {
  import opened Optional
  import opened PyStr
  import opened PyValue
  import opened AttributeInterpreter

  /** A dict value that has a `"predicted"` key becomes 1 or 0 by the truthiness of
      that flag; every other value is kept as it is. */
  function BinaryValue(v: Value): Value {
    if v.DictVal? && HasKey(v.entries, "predicted") then
      IntVal(if Truthy(Get(v.entries, "predicted").value) then 1 else 0)
    else v
  }

  /** The converted dict: the same keys in the same order, each value converted. */
  function BinarySpec(d: Dict<Value>): (b: Dict<Value>)
    ensures Keys(b) == Keys(d)
  {
    seq(|d|, i requires 0 <= i < |d| => (d[i].0, BinaryValue(d[i].1)))
  }

  /** `convert_model_output_to_binary(model_output)`. */
  method ConvertToBinary(modelOutput: Dict<Value>) returns (binary: Dict<Value>)
    ensures forall k :: HasKey(binary, k) <==> HasKey(modelOutput, k)
    ensures DistinctKeys(modelOutput) ==> binary == BinarySpec(modelOutput)
  {
    binary := [];
    var i := 0;
    while i < |modelOutput|
      invariant 0 <= i <= |modelOutput|
      invariant forall k :: HasKey(binary, k) <==> HasKey(modelOutput[..i], k)
      invariant DistinctKeys(modelOutput) ==> binary == BinarySpec(modelOutput[..i])
    {
      var (attr, data) := modelOutput[i];
      var converted := data;
      if data.DictVal? && HasKey(data.entries, "predicted") {
        converted := IntVal(if Truthy(Get(data.entries, "predicted").value) then 1 else 0);
      }
      if DistinctKeys(modelOutput) {
        BinaryStep(modelOutput, i);
      }
      forall k ensures HasKey(Put(binary, attr, converted), k) <==> HasKey(modelOutput[..i + 1], k) {
        PutHasKey(binary, attr, converted, k);
        KeysAppend(modelOutput[..i], [modelOutput[i]]);
        assert Keys([modelOutput[i]]) == [attr];
        assert modelOutput[..i + 1] == modelOutput[..i] + [modelOutput[i]];
      }
      binary := Put(binary, attr, converted);
      i := i + 1;
    }
    assert modelOutput[..i] == modelOutput;
  }

  /** One loop step: with distinct keys the next attribute is new, so assigning it
      appends its converted entry. */
  lemma BinaryStep(d: Dict<Value>, i: nat)
    requires DistinctKeys(d) && i < |d|
    ensures Put(BinarySpec(d[..i]), d[i].0, BinaryValue(d[i].1)) == BinarySpec(d[..i + 1])
  {
    assert !HasKey(BinarySpec(d[..i]), d[i].0) by {
      forall j | 0 <= j < i ensures Keys(d[..i])[j] != d[i].0 {
        assert d[..i][j] == d[j];
      }
    }
  }

  /** Looking a key up in the converted dict gives the converted value. */
  lemma {:induction false} GetBinary(d: Dict<Value>, k: string)
    ensures Get(BinarySpec(d), k) == if HasKey(d, k) then Some(BinaryValue(Get(d, k).value)) else None
  {
    if d != [] {
      GetBinary(d[1..], k);
      assert BinarySpec(d)[1..] == BinarySpec(d[1..]);
    }
  }

  /** A converted attribute equals 1 exactly when it was a record whose `"predicted"`
      flag is truthy, or a plain value that already equalled 1. */
  lemma BinaryEqualsOne(d: Dict<Value>, k: string)
    ensures EqualsInt(GetOrNone(BinarySpec(d), k), 1) <==>
              HasKey(d, k)
              && (var v := Get(d, k).value;
                  if v.DictVal? && HasKey(v.entries, "predicted") then Truthy(Get(v.entries, "predicted").value)
                  else EqualsInt(v, 1))
  {
    GetBinary(d, k);
  }

  /** Converting twice is converting once. */
  lemma BinaryIdempotent(d: Dict<Value>)
    ensures BinarySpec(BinarySpec(d)) == BinarySpec(d)
  {
  }

  /** A map with no `"predicted"` records, such as one already converted, is left as it is. */
  lemma BinaryIdentity(d: Dict<Value>)
    requires forall i :: 0 <= i < |d| ==> !(d[i].1.DictVal? && HasKey(d[i].1.entries, "predicted"))
    ensures BinarySpec(d) == d
  {
  }

  /** The dict `generate_summary` returns. */
  datatype SummaryResult = SummaryResult(
    summary: string,
    grouped: Dict<Dict<Value>>,
    skincare: seq<string>,
    grooming: seq<string>,
    raw: Value)

  /** The message of the `AttributeError` raised by `.items()` on a value that is not a dict. */
  function NoItemsMessage(v: Value): string {
    "'" + TypeName(v) + "' object has no attribute 'items'"
  }

  /** `generate_summary(model_output)`. The only failure the steps can raise is the
      `.items()` call on an input that is not a dict. */
  method GenerateSummary(modelOutput: Value) returns (r: SummaryResult)
    ensures r.raw == modelOutput
    ensures !modelOutput.DictVal? ==>
              r.summary == "Error generating summary: " + NoItemsMessage(modelOutput)
              && r.grouped == [] && r.skincare == [] && r.grooming == []
    ensures modelOutput.DictVal? && DistinctKeys(modelOutput.entries) ==>
              var b := BinarySpec(modelOutput.entries);
              r.summary == Join("\n", SummaryParts(GroupAttributesSpec(b), b))
              && r.grouped == GroupAttributesSpec(b)
              && r.skincare == FiredTips(SkincareRules, b)
              && r.grooming == FiredTips(GroomingRules, b)
  {
    if !modelOutput.DictVal? {
      return SummaryResult("Error generating summary: " + NoItemsMessage(modelOutput), [], [], [], modelOutput);
    }
    var binaryOutput := ConvertToBinary(modelOutput.entries);
    var groupedResults := GroupAttributes(binaryOutput);
    var summary := CreateNaturalSummary(groupedResults, binaryOutput);
    var skincareTips := SkincareRecommendations(binaryOutput);
    var groomingTips := GroomingRecommendations(binaryOutput);
    r := SummaryResult(summary, groupedResults, skincareTips, groomingTips, modelOutput);
  }
}
