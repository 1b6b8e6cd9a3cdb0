/**
 * The rule-based interpreter of attribute_interpreter_v2.py: grouping of the
 * flat attribute map, the skincare and grooming rule chains, the sectioned
 * plain-text summary and the per-attribute sentences.
 *
 * The source writes each rule chain as a run of `if` statements that extend a
 * local list. Each chain is modelled twice: as a method that does exactly that,
 * and as an ordered rule table evaluated by `FiredTips`; the methods are proved
 * to agree with the tables, and the properties of the output are proved about
 * the tables.
 */
module AttributeInterpreter {
  import opened Optional
  import opened PyStr
  import opened PyValue

  // ---------------------------------------------------------------- grouping

  /** The fixed groups in declaration order, keys spelled as the source spells them
      (note `"double chin"` with a space and `"receeding_hairline"`). */
  const Groups: seq<(string, seq<string>)> := [
    ("image_quality", ["image_id", "blurry_image"]),
    ("facial_features", ["attractive", "sharp_jawline", "high_cheekbones", "big_eyes", "big_lips", "sharp_nose", "double chin"]),
    ("skin_condition", ["clear_skin", "dark_circles", "oily_skin"]),
    ("hair_features", ["bald", "receeding_hairline", "long_hair", "curly_hair", "grey_hair", "black_hair"]),
    ("facial_hair", ["has_beard", "patchy_beard", "has_mustache"]),
    ("grooming", ["well_groomed", "has_makeup", "wearing_glasses", "wearing_hat", "thick_eyebrow"]),
    ("expression", ["smiling", "mouth_open"]),
    ("demographics", ["adult", "old", "male", "veil"])
  ]

  /** The keys of `keys` that `d` has, in the order of `keys`. */
  function PresentKeys(keys: seq<string>, d: Dict<Value>): (ks: seq<string>)
    ensures forall k :: k in ks <==> k in keys && HasKey(d, k)
  {
    if keys == [] then []
    else (if HasKey(d, keys[0]) then [keys[0]] else []) + PresentKeys(keys[1..], d)
  }

  /** The dict comprehension `{attr: d.get(attr) for attr in keys if attr in d}`. */
  function GroupValues(keys: seq<string>, d: Dict<Value>): (g: Dict<Value>)
  {
    if keys == [] then []
    else (if HasKey(d, keys[0]) then [(keys[0], Get(d, keys[0]).value)] else []) + GroupValues(keys[1..], d)
  }

  /** A group holds exactly its listed keys that the input has, in list order,
      each with the input's value. */
  lemma {:induction false} GroupValuesExact(keys: seq<string>, d: Dict<Value>)
    ensures Keys(GroupValues(keys, d)) == PresentKeys(keys, d)
    ensures forall i :: 0 <= i < |GroupValues(keys, d)| ==>
              Get(d, GroupValues(keys, d)[i].0) == Some(GroupValues(keys, d)[i].1)
  {
    if keys != [] {
      GroupValuesExact(keys[1..], d);
      var head: Dict<Value> := if HasKey(d, keys[0]) then [(keys[0], Get(d, keys[0]).value)] else [];
      var tail := GroupValues(keys[1..], d);
      KeysAppend(head, tail);
    }
  }

  /** A group is empty exactly when the input has none of its keys. */
  lemma GroupEmptyIff(keys: seq<string>, d: Dict<Value>)
    ensures GroupValues(keys, d) == [] <==> forall k :: k in keys ==> !HasKey(d, k)
  {
    GroupValuesExact(keys, d);
    var ks := PresentKeys(keys, d);
    if GroupValues(keys, d) == [] {
      assert ks == [];
    } else {
      assert ks[0] in ks;
    }
  }

  /** What `group_attributes` has built after the first `n` groups. */
  function GroupedUpTo(d: Dict<Value>, n: nat): (r: Dict<Dict<Value>>)
    requires n <= |Groups|
  {
    if n == 0 then []
    else
      var g := GroupValues(Groups[n - 1].1, d);
      GroupedUpTo(d, n - 1) + (if g != [] then [(Groups[n - 1].0, g)] else [])
  }

  /** `group_attributes(model_output)`. */
  method GroupAttributes(d: Dict<Value>) returns (grouped: Dict<Dict<Value>>)
    ensures grouped == GroupedUpTo(d, |Groups|)
  {
    grouped := [];
    var i := 0;
    while i < |Groups|
      invariant 0 <= i <= |Groups|
      invariant grouped == GroupedUpTo(d, i)
    {
      var groupValues := GroupValues(Groups[i].1, d);
      GroupedStep(d, i);
      if groupValues != [] {
        assert !HasKey(grouped, Groups[i].0) by { GroupedNames(d, i); }
        grouped := Put(grouped, Groups[i].0, groupValues);
      }
      i := i + 1;
    }
  }

  /** One more group adds its entry when the input has one of its keys. */
  lemma GroupedStep(d: Dict<Value>, i: nat)
    requires i < |Groups|
    ensures var g := GroupValues(Groups[i].1, d);
            GroupedUpTo(d, i + 1) == GroupedUpTo(d, i) + if g != [] then [(Groups[i].0, g)] else []
  {
  }

  /** The names of the groups, for ranking. */
  function GroupName(j: nat): string
    requires j < |Groups|
  {
    Groups[j].0
  }

  /** Every entry built from the first `n` groups is named after one of them,
      and the entries follow declaration order. */
  lemma {:induction false} GroupedNames(d: Dict<Value>, n: nat)
    requires n <= |Groups|
    ensures forall t :: 0 <= t < |GroupedUpTo(d, n)| ==>
              exists j :: 0 <= j < n && GroupedUpTo(d, n)[t].0 == GroupName(j)
    ensures n < |Groups| ==> !HasKey(GroupedUpTo(d, n), Groups[n].0)
  {
    var r := GroupedUpTo(d, n);
    if n > 0 {
      GroupedNames(d, n - 1);
      var p := GroupedUpTo(d, n - 1);
      forall t | 0 <= t < |r| ensures exists j :: 0 <= j < n && r[t].0 == GroupName(j) {
        if t < |p| {
          assert r[t] == p[t];
          var j :| 0 <= j < n - 1 && p[t].0 == GroupName(j);
        } else {
          assert r[t].0 == GroupName(n - 1);
        }
      }
    } else {
      assert r == [];
    }
    if n < |Groups| {
      forall t | 0 <= t < |r| ensures Keys(r)[t] != Groups[n].0 {
        var j :| 0 <= j < n && r[t].0 == GroupName(j);
        DistinctGroupNames(j, n);
      }
    }
  }

  lemma DistinctGroupNames(i: nat, j: nat)
    requires i < j < |Groups|
    ensures Groups[i].0 != Groups[j].0
  {
  }

  /** What is built from the first `m` groups stays, unchanged, at the front of
      what is built from the first `n`. */
  lemma {:induction false} GroupedPrefix(d: Dict<Value>, m: nat, n: nat)
    requires m <= n <= |Groups|
    ensures |GroupedUpTo(d, m)| <= |GroupedUpTo(d, n)|
    ensures GroupedUpTo(d, n)[..|GroupedUpTo(d, m)|] == GroupedUpTo(d, m)
  {
    if m < n {
      GroupedPrefix(d, m, n - 1);
      var p := GroupedUpTo(d, n - 1);
      assert GroupedUpTo(d, n)[..|p|] == p;
    }
  }

  /** A group with at least one key present sits right after the groups
      declared before it. */
  lemma GroupAt(d: Dict<Value>, j: nat)
    requires j < |Groups| && GroupValues(Groups[j].1, d) != []
    ensures |GroupedUpTo(d, j)| < |GroupAttributesSpec(d)|
    ensures GroupAttributesSpec(d)[|GroupedUpTo(d, j)|] == (Groups[j].0, GroupValues(Groups[j].1, d))
  {
    GroupedPrefix(d, j + 1, |Groups|);
    var p := GroupedUpTo(d, j + 1);
    assert p[|GroupedUpTo(d, j)|] == (Groups[j].0, GroupValues(Groups[j].1, d));
    assert GroupAttributesSpec(d)[..|p|] == p;
  }

  /** Groups appear in declaration order: of two present groups, the one declared
      first comes first. */
  lemma GroupsInDeclarationOrder(d: Dict<Value>, i: nat, j: nat)
    requires i < j < |Groups|
    requires GroupValues(Groups[i].1, d) != [] && GroupValues(Groups[j].1, d) != []
    ensures |GroupedUpTo(d, i)| < |GroupedUpTo(d, j)|
  {
    GroupedGrows(d, i, j);
  }

  /** A present group adds an entry, and later groups only add more. */
  lemma {:induction false} GroupedGrows(d: Dict<Value>, m: nat, n: nat)
    requires m < n <= |Groups| && GroupValues(Groups[m].1, d) != []
    ensures |GroupedUpTo(d, m)| < |GroupedUpTo(d, n)|
  {
    if m + 1 < n {
      GroupedGrows(d, m, n - 1);
    }
  }

  /** Every entry of the output is one group's name with that group's non-empty selection. */
  lemma {:induction false} NamedEntryIsGroup(d: Dict<Value>, n: nat, t: nat)
    requires n <= |Groups| && t < |GroupedUpTo(d, n)|
    ensures exists j :: 0 <= j < n && GroupedUpTo(d, n)[t] == (Groups[j].0, GroupValues(Groups[j].1, d))
                        && GroupValues(Groups[j].1, d) != []
  {
    if t < |GroupedUpTo(d, n - 1)| {
      NamedEntryIsGroup(d, n - 1, t);
    }
  }

  /** A group appears in the output exactly when the input has at least one of its
      keys, and then its entry is the group's own selection of the input. */
  lemma GroupPresentIff(d: Dict<Value>, j: nat)
    requires j < |Groups|
    ensures HasKey(GroupAttributesSpec(d), Groups[j].0) <==> exists k :: k in Groups[j].1 && HasKey(d, k)
    ensures HasKey(GroupAttributesSpec(d), Groups[j].0) ==>
              Get(GroupAttributesSpec(d), Groups[j].0) == Some(GroupValues(Groups[j].1, d))
  {
    var r := GroupAttributesSpec(d);
    GroupEmptyIff(Groups[j].1, d);
    if GroupValues(Groups[j].1, d) != [] {
      GroupAt(d, j);
      var p := GroupedUpTo(d, j);
      GroupedNames(d, j);
      assert r == p + r[|p|..] by { GroupedPrefix(d, j, |Groups|); }
      GetAppend(p, r[|p|..], Groups[j].0);
      assert Keys(r)[|p|] == Groups[j].0;
    } else if HasKey(r, Groups[j].0) {
      var t :| 0 <= t < |r| && Keys(r)[t] == Groups[j].0;
      NamedEntryIsGroup(d, |Groups|, t);
      var j' :| 0 <= j' < |Groups| && r[t] == (Groups[j'].0, GroupValues(Groups[j'].1, d)) && GroupValues(Groups[j'].1, d) != [];
      if j' < j { DistinctGroupNames(j', j); } else if j < j' { DistinctGroupNames(j, j'); }
    }
  }

  /** The result of `group_attributes`, as a function of its input. */
  function GroupAttributesSpec(d: Dict<Value>): Dict<Dict<Value>> {
    GroupedUpTo(d, |Groups|)
  }

  // ---------------------------------------------------------------- rule tables

  /** One rule of a chain: when the attribute equals `expected` (Python `==`, so
      `True` counts as 1), its texts are added, in their fixed order. */
  datatype Rule = Rule(key: string, expected: int, texts: seq<string>)

  predicate Fires(r: Rule, attrs: Dict<Value>) {
    EqualsInt(GetOrNone(attrs, r.key), r.expected)
  }

  /** The texts of the rules that fire, rule by rule in table order. */
  function FiredTips(rules: seq<Rule>, attrs: Dict<Value>): seq<string> {
    if rules == [] then []
    else (if Fires(rules[0], attrs) then rules[0].texts else []) + FiredTips(rules[1..], attrs)
  }

  /** How many rules of the table fire. */
  function FiredCount(rules: seq<Rule>, attrs: Dict<Value>): nat {
    if rules == [] then 0
    else (if Fires(rules[0], attrs) then 1 else 0) + FiredCount(rules[1..], attrs)
  }

  /** When every rule carries `n` texts, `n` texts are added per rule that fires. */
  lemma {:induction false} FiredTipsLength(rules: seq<Rule>, attrs: Dict<Value>, n: nat)
    requires forall r :: r in rules ==> |r.texts| == n
    ensures |FiredTips(rules, attrs)| == n * FiredCount(rules, attrs)
  {
    if rules != [] {
      FiredTipsLength(rules[1..], attrs, n);
      if Fires(rules[0], attrs) {
        assert rules[0] in rules;
        MulSucc(n, FiredCount(rules[1..], attrs));
      }
    }
  }

  lemma MulSucc(n: nat, c: nat)
    ensures n * (1 + c) == n + n * c
  {
  }

  lemma {:induction false} FiredCountBound(rules: seq<Rule>, attrs: Dict<Value>)
    ensures FiredCount(rules, attrs) <= |rules|
  {
    if rules != [] {
      FiredCountBound(rules[1..], attrs);
    }
  }

  /** A table whose attributes are all absent adds nothing. */
  lemma {:induction false} AbsentFiresNothing(rules: seq<Rule>, attrs: Dict<Value>)
    requires forall r :: r in rules ==> !HasKey(attrs, r.key)
    ensures FiredTips(rules, attrs) == []
  {
    if rules != [] {
      AbsentFiresNothing(rules[1..], attrs);
    }
  }

  /** Nothing fires exactly when no rule's condition holds. */
  lemma {:induction false} NothingFiredIff(rules: seq<Rule>, attrs: Dict<Value>)
    requires forall r :: r in rules ==> r.texts != []
    ensures FiredTips(rules, attrs) == [] <==> forall r :: r in rules ==> !Fires(r, attrs)
  {
    if rules != [] {
      NothingFiredIff(rules[1..], attrs);
    }
  }

  /** The texts added by a three-rule table. */
  function Block(r: Rule, attrs: Dict<Value>): seq<string> {
    if Fires(r, attrs) then r.texts else []
  }

  lemma FiredTipsOfThree(a: Rule, b: Rule, c: Rule, attrs: Dict<Value>)
    ensures FiredTips([a, b, c], attrs) == Block(a, attrs) + Block(b, attrs) + Block(c, attrs)
  {
    assert [a, b, c][1..] == [b, c];
    assert [b, c][1..] == [c];
    assert [c][1..] == [];
    assert FiredTips([c], attrs) == Block(c, attrs) + FiredTips([], attrs);
    assert FiredTips([b, c], attrs) == Block(b, attrs) + FiredTips([c], attrs);
    assert FiredTips([a, b, c], attrs) == Block(a, attrs) + FiredTips([b, c], attrs);
  }

  // ---------------------------------------------------------------- skincare

  const OilySkinTips := [
    "Use a gentle, oil-free cleanser twice daily",
    "Apply a non-comedogenic moisturizer",
    "Consider products with salicylic acid or niacinamide",
    "Use clay masks weekly to control excess oil"
  ]
  const UnclearSkinTips := [
    "Establish a consistent cleansing routine",
    "Use products with soothing ingredients like aloe vera",
    "Consider adding vitamin C serum for skin clarity"
  ]
  const DarkCircleTips := [
    "Apply eye cream with caffeine and vitamin K",
    "Ensure adequate sleep and hydration",
    "Consider using a color corrector under eyes"
  ]

  /** The skincare chain in source order: oily skin, then skin that is not clear,
      then dark circles. */
  const SkincareRules := [
    Rule("oily_skin", 1, OilySkinTips),
    Rule("clear_skin", 0, UnclearSkinTips),
    Rule("dark_circles", 1, DarkCircleTips)
  ]

  /** `get_skincare_recommendations(skin_attributes)`. */
  method SkincareRecommendations(attrs: Dict<Value>) returns (tips: seq<string>)
    ensures tips == FiredTips(SkincareRules, attrs)
  {
    FiredTipsOfThree(SkincareRules[0], SkincareRules[1], SkincareRules[2], attrs);
    tips := [];
    if EqualsInt(GetOrNone(attrs, "oily_skin"), 1) {
      tips := tips + OilySkinTips;
    }
    if EqualsInt(GetOrNone(attrs, "clear_skin"), 0) {
      tips := tips + UnclearSkinTips;
    }
    if EqualsInt(GetOrNone(attrs, "dark_circles"), 1) {
      tips := tips + DarkCircleTips;
    }
  }

  /** The skincare list is the oily-skin block (4 tips), then the unclear-skin block
      (3), then the dark-circle block (3), each only when its condition holds; an
      absent key fires nothing and there is no default. */
  lemma SkincareBlocks(attrs: Dict<Value>)
    ensures FiredTips(SkincareRules, attrs) ==
              (if EqualsInt(GetOrNone(attrs, "oily_skin"), 1) then OilySkinTips else [])
              + (if EqualsInt(GetOrNone(attrs, "clear_skin"), 0) then UnclearSkinTips else [])
              + (if EqualsInt(GetOrNone(attrs, "dark_circles"), 1) then DarkCircleTips else [])
    ensures |FiredTips(SkincareRules, attrs)| ==
              (if EqualsInt(GetOrNone(attrs, "oily_skin"), 1) then 4 else 0)
              + (if EqualsInt(GetOrNone(attrs, "clear_skin"), 0) then 3 else 0)
              + (if EqualsInt(GetOrNone(attrs, "dark_circles"), 1) then 3 else 0)
    ensures (!HasKey(attrs, "oily_skin") && !HasKey(attrs, "clear_skin") && !HasKey(attrs, "dark_circles"))
              ==> FiredTips(SkincareRules, attrs) == []
  {
    FiredTipsOfThree(SkincareRules[0], SkincareRules[1], SkincareRules[2], attrs);
  }

  // ---------------------------------------------------------------- grooming

  const HairlineTips := [
    "Use anti-hair loss shampoo with biotin",
    "Consider minoxidil treatment after consulting a specialist",
    "Massage scalp regularly to stimulate blood flow"
  ]
  const CurlyHairTips := [
    "Use sulfate-free shampoo for curly hair",
    "Apply leave-in conditioner to maintain moisture",
    "Style with curl-defining cream for better definition"
  ]
  const BeardTips := [
    "Apply beard oil daily for softness and shine",
    "Trim beard regularly to maintain shape",
    "Use a specialized beard cleanser"
  ]

  /** The grooming chain in source order (key spelled `receeding_hairline`). */
  const GroomingRules := [
    Rule("receeding_hairline", 1, HairlineTips),
    Rule("curly_hair", 1, CurlyHairTips),
    Rule("has_beard", 1, BeardTips)
  ]

  /** `get_grooming_recommendations(attributes)`. */
  method GroomingRecommendations(attrs: Dict<Value>) returns (tips: seq<string>)
    ensures tips == FiredTips(GroomingRules, attrs)
  {
    FiredTipsOfThree(GroomingRules[0], GroomingRules[1], GroomingRules[2], attrs);
    tips := [];
    if EqualsInt(GetOrNone(attrs, "receeding_hairline"), 1) {
      tips := tips + HairlineTips;
    }
    if EqualsInt(GetOrNone(attrs, "curly_hair"), 1) {
      tips := tips + CurlyHairTips;
    }
    if EqualsInt(GetOrNone(attrs, "has_beard"), 1) {
      tips := tips + BeardTips;
    }
  }

  /** Three grooming tips per rule that fires, and none when no rule fires. */
  lemma GroomingLength(attrs: Dict<Value>)
    ensures |FiredTips(GroomingRules, attrs)| == 3 * FiredCount(GroomingRules, attrs)
    ensures FiredCount(GroomingRules, attrs) <= 3
  {
    FiredTipsLength(GroomingRules, attrs, 3);
    FiredCountBound(GroomingRules, attrs);
  }

  // ---------------------------------------------------------------- summary

  /** The facial features the summary names, in source order. */
  const FacialRules := [
    Rule("attractive", 1, ["attractive facial features"]),
    Rule("sharp_jawline", 1, ["defined jawline"]),
    Rule("high_cheekbones", 1, ["high cheekbones"])
  ]

  /** The skin conditions the summary names, in source order. */
  const SkinRules := [
    Rule("clear_skin", 1, ["clear complexion"]),
    Rule("oily_skin", 1, ["oily skin tendencies"]),
    Rule("dark_circles", 1, ["noticeable dark circles"])
  ]

  const MaleTips := [
    "Use skincare products specifically formulated for men's skin",
    "Consider a men's facial moisturizer with SPF for daily protection",
    "Look for products targeting specific male skin concerns"
  ]

  const MaintenanceText := "You're already maintaining good grooming habits. Continue your current routine while incorporating these recommendations for even better results!"
  const GettingStartedText := "Start implementing these recommendations gradually. Begin with the basic skincare routine and add more steps as you become comfortable."

  /** The named facial features are those whose attribute equals 1, in source order. */
  lemma FacialBlocks(attrs: Dict<Value>)
    ensures FiredTips(FacialRules, attrs) ==
              (if EqualsInt(GetOrNone(attrs, "attractive"), 1) then ["attractive facial features"] else [])
              + (if EqualsInt(GetOrNone(attrs, "sharp_jawline"), 1) then ["defined jawline"] else [])
              + (if EqualsInt(GetOrNone(attrs, "high_cheekbones"), 1) then ["high cheekbones"] else [])
  {
    FiredTipsOfThree(FacialRules[0], FacialRules[1], FacialRules[2], attrs);
  }

  /** The named skin conditions are those whose attribute equals 1, in source order. */
  lemma SkinBlocks(attrs: Dict<Value>)
    ensures FiredTips(SkinRules, attrs) ==
              (if EqualsInt(GetOrNone(attrs, "clear_skin"), 1) then ["clear complexion"] else [])
              + (if EqualsInt(GetOrNone(attrs, "oily_skin"), 1) then ["oily skin tendencies"] else [])
              + (if EqualsInt(GetOrNone(attrs, "dark_circles"), 1) then ["noticeable dark circles"] else [])
  {
    FiredTipsOfThree(SkinRules[0], SkinRules[1], SkinRules[2], attrs);
  }

  /** "a, b and c": all but the last item joined by ", ", then " and " and the
      last; a single item on its own. */
  function Enumerate(items: seq<string>): string
    requires |items| >= 1
  {
    if |items| == 1 then items[0]
    else Join(", ", items[..|items| - 1]) + " and " + items[|items| - 1]
  }

  /** The enumeration is the plain ", " join with its last separator read as " and ":
      both start with the ", " join of all but the last item. */
  lemma EnumerateVsJoin(items: seq<string>)
    requires |items| >= 2
    ensures Join(", ", items) == Join(", ", items[..|items| - 1]) + ", " + items[|items| - 1]
    ensures Enumerate(items) == Join(", ", items[..|items| - 1]) + " and " + items[|items| - 1]
  {
    JoinInitLast(", ", items);
  }

  /** Each tip as a bullet line `"• tip"`. */
  function Bullets(tips: seq<string>): (r: seq<string>)
    ensures |r| == |tips|
    ensures forall i :: 0 <= i < |tips| ==> r[i] == "\U{2022} " + tips[i]
  {
    seq(|tips|, i requires 0 <= i < |tips| => "\U{2022} " + tips[i])
  }

  function FacialSection(attrs: Dict<Value>): seq<string> {
    var features := FiredTips(FacialRules, attrs);
    if features == [] then [] else ["Facial Analysis:", "You have " + Enumerate(features) + "."]
  }

  /** `grouped_results.get('skin_condition')` is truthy. */
  predicate SkinGroupPresent(grouped: Dict<Dict<Value>>) {
    Get(grouped, "skin_condition").Some? && Get(grouped, "skin_condition").value != []
  }

  function SkinSection(grouped: Dict<Dict<Value>>, attrs: Dict<Value>): seq<string> {
    var conditions := FiredTips(SkinRules, attrs);
    if !SkinGroupPresent(grouped) || conditions == [] then []
    else ["\nSkin Analysis:", "Your skin shows " + Join(", ", conditions) + "."] + SkincarePart(attrs)
  }

  /** The skincare bullets nested in the skin section, under their heading. */
  function SkincarePart(attrs: Dict<Value>): seq<string> {
    var tips := FiredTips(SkincareRules, attrs);
    if tips == [] then [] else ["\nSkincare Recommendations:"] + Bullets(tips)
  }

  function GroomingSection(attrs: Dict<Value>): seq<string> {
    var tips := FiredTips(GroomingRules, attrs);
    if tips == [] then [] else ["\nGrooming Recommendations:"] + Bullets(tips)
  }

  function TipsSection(attrs: Dict<Value>): seq<string> {
    if EqualsInt(GetOrNone(attrs, "male"), 1) then ["\nAdditional Tips:"] + Bullets(MaleTips) else []
  }

  function ClosingSection(attrs: Dict<Value>): seq<string> {
    if EqualsInt(GetOrNone(attrs, "well_groomed"), 1) then ["\nMaintenance:", MaintenanceText]
    else ["\nGetting Started:", GettingStartedText]
  }

  /** The lines of the summary, section by section. */
  function SummaryParts(grouped: Dict<Dict<Value>>, attrs: Dict<Value>): seq<string> {
    FacialSection(attrs) + SkinSection(grouped, attrs) + GroomingSection(attrs)
    + TipsSection(attrs) + ClosingSection(attrs)
  }

  /** `create_natural_summary(grouped_results, model_output, mapping)`; the mapping
      argument is unused by the source and is not a parameter here. The source's one
      function is split into one step per section, each appending to `parts`. */
  method CreateNaturalSummary(grouped: Dict<Dict<Value>>, attrs: Dict<Value>) returns (summary: string)
    ensures summary == Join("\n", SummaryParts(grouped, attrs))
  {
    var parts: seq<string> := [];
    parts := AppendFacialAnalysis(parts, attrs);
    assert parts == FacialSection(attrs);
    parts := AppendSkinAnalysis(parts, grouped, attrs);
    parts := AppendGrooming(parts, attrs);
    parts := AppendAdditionalTips(parts, attrs);
    parts := AppendClosing(parts, attrs);
    assert parts == SummaryParts(grouped, attrs);
    summary := Join("\n", parts);
  }

  method AppendFacialAnalysis(parts: seq<string>, attrs: Dict<Value>) returns (parts': seq<string>)
    ensures parts' == parts + FacialSection(attrs)
  {
    FacialBlocks(attrs);
    var facialFeatures: seq<string> := [];
    if EqualsInt(GetOrNone(attrs, "attractive"), 1) {
      facialFeatures := facialFeatures + ["attractive facial features"];
    }
    if EqualsInt(GetOrNone(attrs, "sharp_jawline"), 1) {
      facialFeatures := facialFeatures + ["defined jawline"];
    }
    if EqualsInt(GetOrNone(attrs, "high_cheekbones"), 1) {
      facialFeatures := facialFeatures + ["high cheekbones"];
    }
    assert facialFeatures == FiredTips(FacialRules, attrs);
    parts' := parts;
    if facialFeatures != [] {
      parts' := parts' + ["Facial Analysis:", "You have " + Enumerate(facialFeatures) + "."];
    }
  }

  method AppendSkinAnalysis(parts: seq<string>, grouped: Dict<Dict<Value>>, attrs: Dict<Value>)
    returns (parts': seq<string>)
    ensures parts' == parts + SkinSection(grouped, attrs)
  {
    parts' := parts;
    if SkinGroupPresent(grouped) {
      SkinBlocks(attrs);
      var skinConditions: seq<string> := [];
      if EqualsInt(GetOrNone(attrs, "clear_skin"), 1) {
        skinConditions := skinConditions + ["clear complexion"];
      }
      if EqualsInt(GetOrNone(attrs, "oily_skin"), 1) {
        skinConditions := skinConditions + ["oily skin tendencies"];
      }
      if EqualsInt(GetOrNone(attrs, "dark_circles"), 1) {
        skinConditions := skinConditions + ["noticeable dark circles"];
      }
      assert skinConditions == FiredTips(SkinRules, attrs);
      if skinConditions != [] {
        var skinLines := ["\nSkin Analysis:", "Your skin shows " + Join(", ", skinConditions) + "."];
        assert SkinSection(grouped, attrs) == skinLines + SkincarePart(attrs);
        parts' := parts' + skinLines;
        var skincareTips := SkincareRecommendations(attrs);
        if skincareTips != [] {
          parts' := parts' + (["\nSkincare Recommendations:"] + Bullets(skincareTips));
        }
        ConcatAssoc(parts, skinLines, SkincarePart(attrs));
      }
    }
  }

  method AppendGrooming(parts: seq<string>, attrs: Dict<Value>) returns (parts': seq<string>)
    ensures parts' == parts + GroomingSection(attrs)
  {
    parts' := parts;
    var groomingTips := GroomingRecommendations(attrs);
    if groomingTips != [] {
      parts' := parts' + (["\nGrooming Recommendations:"] + Bullets(groomingTips));
    }
  }

  method AppendAdditionalTips(parts: seq<string>, attrs: Dict<Value>) returns (parts': seq<string>)
    ensures parts' == parts + TipsSection(attrs)
  {
    parts' := parts;
    var additionalTips: seq<string> := [];
    if EqualsInt(GetOrNone(attrs, "male"), 1) {
      additionalTips := additionalTips + MaleTips;
    }
    if additionalTips != [] {
      parts' := parts' + (["\nAdditional Tips:"] + Bullets(additionalTips));
    }
  }

  method AppendClosing(parts: seq<string>, attrs: Dict<Value>) returns (parts': seq<string>)
    ensures parts' == parts + ClosingSection(attrs)
  {
    if EqualsInt(GetOrNone(attrs, "well_groomed"), 1) {
      parts' := parts + ["\nMaintenance:", MaintenanceText];
    } else {
      parts' := parts + ["\nGetting Started:", GettingStartedText];
    }
  }

  // ---------------------------------------------------------------- summary properties

  /** An attribute that equals 1 is present in the map. */
  lemma EqualsOnePresent(attrs: Dict<Value>, k: string)
    requires EqualsInt(GetOrNone(attrs, k), 1)
    ensures HasKey(attrs, k)
  {
  }

  /** The facial section is there exactly when one of the three features equals 1. */
  lemma FacialSectionIff(attrs: Dict<Value>)
    ensures FacialSection(attrs) != [] <==>
              EqualsInt(GetOrNone(attrs, "attractive"), 1) || EqualsInt(GetOrNone(attrs, "sharp_jawline"), 1)
              || EqualsInt(GetOrNone(attrs, "high_cheekbones"), 1)
    ensures FacialSection(attrs) != [] ==> |FacialSection(attrs)| == 2 && FacialSection(attrs)[0] == "Facial Analysis:"
  {
    FacialBlocks(attrs);
  }

  /** All three features read "a, b and c". */
  lemma FacialSentenceAllThree(attrs: Dict<Value>)
    requires EqualsInt(GetOrNone(attrs, "attractive"), 1) && EqualsInt(GetOrNone(attrs, "sharp_jawline"), 1)
    requires EqualsInt(GetOrNone(attrs, "high_cheekbones"), 1)
    ensures FacialSection(attrs) ==
              ["Facial Analysis:", "You have " + "attractive facial features" + ", " + "defined jawline"
                                   + " and " + "high cheekbones" + "."]
  {
    FacialBlocks(attrs);
    var all := ["attractive facial features", "defined jawline", "high cheekbones"];
    assert FiredTips(FacialRules, attrs) == all;
    assert all[..2] == ["attractive facial features", "defined jawline"];
    var e := "attractive facial features" + ", " + "defined jawline";
    assert Join(", ", all[..2]) == e by {
      assert all[..2][1..] == ["defined jawline"];
    }
    assert all[2] == "high cheekbones";
    assert Enumerate(all) == e + " and " + "high cheekbones";
    assert FacialSection(attrs) == ["Facial Analysis:", "You have " + Enumerate(all) + "."];
    assert "You have " + (e + " and " + "high cheekbones") + "."
        == "You have " + "attractive facial features" + ", " + "defined jawline" + " and " + "high cheekbones" + ".";
  }

  /** A single feature is named on its own, with no " and ". */
  lemma FacialSentenceJawlineOnly(attrs: Dict<Value>)
    requires !EqualsInt(GetOrNone(attrs, "attractive"), 1) && EqualsInt(GetOrNone(attrs, "sharp_jawline"), 1)
    requires !EqualsInt(GetOrNone(attrs, "high_cheekbones"), 1)
    ensures FacialSection(attrs) == ["Facial Analysis:", "You have " + "defined jawline" + "."]
  {
    FacialBlocks(attrs);
    assert FiredTips(FacialRules, attrs) == ["defined jawline"];
  }

  /** The skin section is there exactly when the grouped result has a non-empty
      skin group and one of clear_skin, oily_skin, dark_circles equals 1. */
  lemma SkinSectionIff(grouped: Dict<Dict<Value>>, attrs: Dict<Value>)
    ensures SkinSection(grouped, attrs) != [] <==>
              SkinGroupPresent(grouped)
              && (EqualsInt(GetOrNone(attrs, "clear_skin"), 1) || EqualsInt(GetOrNone(attrs, "oily_skin"), 1)
                  || EqualsInt(GetOrNone(attrs, "dark_circles"), 1))
    ensures SkinSection(grouped, attrs) != [] ==>
              SkinSection(grouped, attrs)[0] == "\nSkin Analysis:"
              && (FiredTips(SkincareRules, attrs) != [] ==> SkinSection(grouped, attrs)[2] == "\nSkincare Recommendations:")
  {
    SkinBlocks(attrs);
  }

  /** `clear_skin == 0` on its own produces skincare tips but no skin text at all:
      the section needs a condition of its own to fire first. */
  lemma UnclearSkinAloneSilent(grouped: Dict<Dict<Value>>, attrs: Dict<Value>)
    requires EqualsInt(GetOrNone(attrs, "clear_skin"), 0)
    requires !EqualsInt(GetOrNone(attrs, "oily_skin"), 1) && !EqualsInt(GetOrNone(attrs, "dark_circles"), 1)
    ensures FiredTips(SkincareRules, attrs) == UnclearSkinTips
    ensures SkinSection(grouped, attrs) == []
  {
    SkincareBlocks(attrs);
    SkinSectionIff(grouped, attrs);
  }

  /** In `generate_summary` the grouped map comes from the same attributes, so the
      skin-group test never decides anything: the skin section is there exactly when
      one of the three conditions equals 1. */
  lemma SkinGroupTestRedundant(attrs: Dict<Value>)
    ensures SkinSection(GroupAttributesSpec(attrs), attrs) != [] <==>
              EqualsInt(GetOrNone(attrs, "clear_skin"), 1) || EqualsInt(GetOrNone(attrs, "oily_skin"), 1)
              || EqualsInt(GetOrNone(attrs, "dark_circles"), 1)
  {
    SkinSectionIff(GroupAttributesSpec(attrs), attrs);
    var skin := Groups[2].1;
    GroupPresentIff(attrs, 2);
    GroupEmptyIff(skin, attrs);
    if EqualsInt(GetOrNone(attrs, "clear_skin"), 1) {
      EqualsOnePresent(attrs, "clear_skin");
      assert "clear_skin" in skin;
    } else if EqualsInt(GetOrNone(attrs, "oily_skin"), 1) {
      EqualsOnePresent(attrs, "oily_skin");
      assert "oily_skin" in skin;
    } else if EqualsInt(GetOrNone(attrs, "dark_circles"), 1) {
      EqualsOnePresent(attrs, "dark_circles");
      assert "dark_circles" in skin;
    }
  }

  /** One heading and three bullets per grooming rule that fires, or nothing. */
  lemma GroomingSectionShape(attrs: Dict<Value>)
    ensures GroomingSection(attrs) == [] <==> FiredCount(GroomingRules, attrs) == 0
    ensures GroomingSection(attrs) != [] ==>
              |GroomingSection(attrs)| == 1 + 3 * FiredCount(GroomingRules, attrs)
              && GroomingSection(attrs)[0] == "\nGrooming Recommendations:"
  {
    GroomingLength(attrs);
  }

  /** The additional tips are there exactly for `male == 1`: a heading and three bullets. */
  lemma TipsSectionIff(attrs: Dict<Value>)
    ensures TipsSection(attrs) != [] <==> EqualsInt(GetOrNone(attrs, "male"), 1)
    ensures TipsSection(attrs) != [] ==> |TipsSection(attrs)| == 4 && TipsSection(attrs)[0] == "\nAdditional Tips:"
  {
  }

  predicate ClosingHeading(p: string) {
    p == "\nMaintenance:" || p == "\nGetting Started:"
  }

  /** No bullet is a closing heading. */
  lemma BulletsNotClosing(tips: seq<string>)
    ensures forall i :: 0 <= i < |Bullets(tips)| ==> !ClosingHeading(Bullets(tips)[i])
  {
    forall i | 0 <= i < |Bullets(tips)| ensures !ClosingHeading(Bullets(tips)[i]) {
      assert Bullets(tips)[i][0] == '\U{2022}';
    }
  }

  lemma FacialNotClosing(attrs: Dict<Value>)
    ensures forall i :: 0 <= i < |FacialSection(attrs)| ==> !ClosingHeading(FacialSection(attrs)[i])
  {
    var features := FiredTips(FacialRules, attrs);
    if features != [] {
      assert ("You have " + Enumerate(features) + ".")[0] == 'Y';
    }
  }

  lemma SkinNotClosing(grouped: Dict<Dict<Value>>, attrs: Dict<Value>)
    ensures forall i :: 0 <= i < |SkinSection(grouped, attrs)| ==> !ClosingHeading(SkinSection(grouped, attrs)[i])
  {
    var conditions := FiredTips(SkinRules, attrs);
    if SkinGroupPresent(grouped) && conditions != [] {
      var lines := ["\nSkin Analysis:", "Your skin shows " + Join(", ", conditions) + "."];
      assert lines[1][0] == 'Y';
      var tips := FiredTips(SkincareRules, attrs);
      BulletsNotClosing(tips);
      var rest := SkincarePart(attrs);
      assert forall i :: 0 <= i < |rest| ==> !ClosingHeading(rest[i]) by {
        if tips != [] {
          assert forall i :: 1 <= i < |rest| ==> rest[i] == Bullets(tips)[i - 1];
        }
      }
      assert SkinSection(grouped, attrs) == lines + rest;
    }
  }

  lemma GroomingNotClosing(attrs: Dict<Value>)
    ensures forall i :: 0 <= i < |GroomingSection(attrs)| ==> !ClosingHeading(GroomingSection(attrs)[i])
  {
    var tips := FiredTips(GroomingRules, attrs);
    BulletsNotClosing(tips);
    if tips != [] {
      assert forall i :: 1 <= i < |GroomingSection(attrs)| ==> GroomingSection(attrs)[i] == Bullets(tips)[i - 1];
    }
  }

  lemma TipsNotClosing(attrs: Dict<Value>)
    ensures forall i :: 0 <= i < |TipsSection(attrs)| ==> !ClosingHeading(TipsSection(attrs)[i])
  {
    BulletsNotClosing(MaleTips);
    if TipsSection(attrs) != [] {
      assert forall i :: 1 <= i < |TipsSection(attrs)| ==> TipsSection(attrs)[i] == Bullets(MaleTips)[i - 1];
    }
  }

  /** No line of `a + b` is a closing heading when none of `a` and none of `b` is. */
  lemma NoClosingAppend(a: seq<string>, b: seq<string>)
    requires forall i :: 0 <= i < |a| ==> !ClosingHeading(a[i])
    requires forall i :: 0 <= i < |b| ==> !ClosingHeading(b[i])
    ensures forall i :: 0 <= i < |a + b| ==> !ClosingHeading((a + b)[i])
  {
  }

  /** The summary always closes with exactly one of the two closing blocks: the
      Maintenance block when `well_groomed == 1`, the Getting Started block
      otherwise, and no closing heading appears anywhere before it. */
  lemma ClosingExactlyOnce(grouped: Dict<Dict<Value>>, attrs: Dict<Value>)
    ensures var parts := SummaryParts(grouped, attrs);
            |parts| >= 2
            && parts[|parts| - 2] == (if EqualsInt(GetOrNone(attrs, "well_groomed"), 1) then "\nMaintenance:" else "\nGetting Started:")
            && parts[|parts| - 1] == (if EqualsInt(GetOrNone(attrs, "well_groomed"), 1) then MaintenanceText else GettingStartedText)
            && forall i :: 0 <= i < |parts| - 2 ==> !ClosingHeading(parts[i])
  {
    var parts := SummaryParts(grouped, attrs);
    var f, k, g, t := FacialSection(attrs), SkinSection(grouped, attrs), GroomingSection(attrs), TipsSection(attrs);
    FacialNotClosing(attrs);
    SkinNotClosing(grouped, attrs);
    GroomingNotClosing(attrs);
    TipsNotClosing(attrs);
    NoClosingAppend(f, k);
    NoClosingAppend(f + k, g);
    NoClosingAppend(f + k + g, t);
    var opening := f + k + g + t;
    assert parts == opening + ClosingSection(attrs);
    forall i | 0 <= i < |parts| - 2 ensures !ClosingHeading(parts[i]) {
      assert parts[i] == opening[i];
    }
  }

  /** A join whose last two parts are `h` and `t` ends with `h`, the separator and `t`. */
  lemma JoinEnding(sep: string, opening: seq<string>, h: string, t: string)
    ensures EndsWith(Join(sep, opening + [h, t]), h + sep + t)
  {
    if opening == [] {
      assert opening + [h, t] == [h, t];
      assert [h, t][1..] == [t];
    } else {
      JoinSnoc(sep, opening, h);
      assert opening + [h, t] == (opening + [h]) + [t];
      JoinSnoc(sep, opening + [h], t);
      assert Join(sep, opening + [h, t]) == Join(sep, opening) + sep + (h + sep + t);
    }
  }

  /** The summary text ends with the closing heading, a newline and the closing sentence. */
  lemma SummaryEnding(grouped: Dict<Dict<Value>>, attrs: Dict<Value>)
    ensures EndsWith(Join("\n", SummaryParts(grouped, attrs)),
                     (if EqualsInt(GetOrNone(attrs, "well_groomed"), 1) then "\nMaintenance:" else "\nGetting Started:")
                     + "\n" + (if EqualsInt(GetOrNone(attrs, "well_groomed"), 1) then MaintenanceText else GettingStartedText))
  {
    var opening := FacialSection(attrs) + SkinSection(grouped, attrs) + GroomingSection(attrs) + TipsSection(attrs);
    var closing := ClosingSection(attrs);
    assert SummaryParts(grouped, attrs) == opening + [closing[0], closing[1]];
    JoinEnding("\n", opening, closing[0], closing[1]);
  }

  // ---------------------------------------------------------------- sentences

  /** One entry of `details`: the attribute's value and the sentence chosen for it. */
  datatype Detail = Detail(value: int, sentence: string)

  /** The sentence for one attribute: the description table's entry for the value's
      decimal spelling when the table has one, else `"For {attr}, value is {value}."`. */
  function Sentence(attr: string, v: int, mapping: map<string, map<string, string>>): (r: string)
    ensures attr in mapping && IntToString(v) in mapping[attr] ==> r == mapping[attr][IntToString(v)]
    ensures attr !in mapping || IntToString(v) !in mapping[attr] ==>
              r == "For " + attr + ", value is " + IntToString(v) + "."
    ensures attr !in mapping || IntToString(v) !in mapping[attr] ==>
              StartsWith(r, "For " + attr + ", value is ")
  {
    var valueStr := IntToString(v);
    if attr in mapping && valueStr in mapping[attr] then mapping[attr][valueStr]
    else "For " + attr + ", value is " + valueStr + "."
  }

  /** The details dict for the given entries, in entry order. */
  function DetailsOf(entries: Dict<int>, sentences: seq<string>): (d: Dict<Detail>)
    requires |sentences| == |entries|
    ensures Keys(d) == Keys(entries)
  {
    seq(|entries|, j requires 0 <= j < |entries| => (entries[j].0, Detail(entries[j].1, sentences[j])))
  }

  /** `generate_sentences(model_output, mapping)` with integer attribute values: one
      sentence per attribute in input order, and a details entry per attribute. */
  method GenerateSentences(modelOutput: Dict<int>, mapping: map<string, map<string, string>>)
    returns (sentences: seq<string>, details: Dict<Detail>)
    ensures |sentences| == |modelOutput|
    ensures forall i :: 0 <= i < |modelOutput| ==>
              sentences[i] == Sentence(modelOutput[i].0, modelOutput[i].1, mapping)
    ensures DistinctKeys(modelOutput) ==> details == DetailsOf(modelOutput, sentences)
  {
    sentences := [];
    details := [];
    var i := 0;
    while i < |modelOutput|
      invariant 0 <= i <= |modelOutput|
      invariant sentences == SentencesOf(modelOutput[..i], mapping)
      invariant DistinctKeys(modelOutput) ==> details == DetailsOf(modelOutput[..i], sentences)
    {
      var (attr, value) := modelOutput[i];
      var sentence := Sentence(attr, value, mapping);
      if DistinctKeys(modelOutput) {
        DetailsStep(modelOutput, sentences, i, sentence);
      }
      SentencesStep(modelOutput, mapping, i);
      sentences := sentences + [sentence];
      details := Put(details, attr, Detail(value, sentence));
      i := i + 1;
    }
    assert modelOutput[..i] == modelOutput;
  }

  /** The sentence of every entry, in order. */
  ghost function SentencesOf(entries: Dict<int>, mapping: map<string, map<string, string>>): (r: seq<string>)
    ensures |r| == |entries|
  {
    seq(|entries|, j requires 0 <= j < |entries| => Sentence(entries[j].0, entries[j].1, mapping))
  }

  /** One loop step: the next entry's sentence is appended. */
  lemma SentencesStep(entries: Dict<int>, mapping: map<string, map<string, string>>, i: nat)
    requires i < |entries|
    ensures SentencesOf(entries[..i + 1], mapping)
            == SentencesOf(entries[..i], mapping) + [Sentence(entries[i].0, entries[i].1, mapping)]
  {
    var longer := SentencesOf(entries[..i + 1], mapping);
    var shorter := SentencesOf(entries[..i], mapping);
    forall j | 0 <= j < i ensures longer[j] == shorter[j] {
      assert entries[..i + 1][j] == entries[..i][j];
    }
    assert longer[i] == Sentence(entries[i].0, entries[i].1, mapping) by {
      assert entries[..i + 1][i] == entries[i];
    }
  }

  /** One loop step: with distinct keys, the next attribute is new, so assigning it
      appends its entry. */
  lemma DetailsStep(entries: Dict<int>, sentences: seq<string>, i: nat, sentence: string)
    requires DistinctKeys(entries) && i < |entries| && |sentences| == i
    ensures Put(DetailsOf(entries[..i], sentences), entries[i].0, Detail(entries[i].1, sentence))
            == DetailsOf(entries[..i + 1], sentences + [sentence])
  {
    var before := DetailsOf(entries[..i], sentences);
    assert !HasKey(before, entries[i].0) by {
      forall j | 0 <= j < i ensures Keys(entries[..i])[j] != entries[i].0 {
        assert entries[..i][j] == entries[j];
      }
    }
  }

  /** For a dict (distinct keys), `details` has exactly the input's keys, in input
      order, and each attribute's entry holds its value and its sentence. */
  lemma DetailsLookup(modelOutput: Dict<int>, sentences: seq<string>, i: nat)
    requires DistinctKeys(modelOutput) && |sentences| == |modelOutput| && i < |modelOutput|
    ensures Get(DetailsOf(modelOutput, sentences), modelOutput[i].0) == Some(Detail(modelOutput[i].1, sentences[i]))
  {
    var d := DetailsOf(modelOutput, sentences);
    assert d == d[..i] + d[i..];
    assert !HasKey(d[..i], modelOutput[i].0) by {
      assert Keys(d[..i]) == Keys(modelOutput[..i]) by {
        assert d[..i] == DetailsOf(modelOutput[..i], sentences[..i]);
      }
      forall j | 0 <= j < i ensures Keys(modelOutput[..i])[j] != modelOutput[i].0 {
        assert modelOutput[..i][j] == modelOutput[j];
      }
    }
    GetAppend(d[..i], d[i..], modelOutput[i].0);
    assert d[i..][0] == (modelOutput[i].0, Detail(modelOutput[i].1, sentences[i]));
  }
}
