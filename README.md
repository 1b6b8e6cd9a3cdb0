# GRIN backend: the deterministic core, modelled in Dafny

The GRIN backend is a FastAPI service. It crops the face out of an uploaded
photograph, runs an attribute classifier on the crop, and turns the resulting
flat attribute map into text: a sectioned plain-text summary, recommendation
lists, an HTML report and a PDF report. Setup scripts put Google Drive links for
the model files into `.env`, and download scripts fetch those files.

This project models the deterministic logic underneath that plumbing and proves
what it promises. It covers:

- **The rule-based interpreter** (`AttributeInterpreter`, `Summarizer`).
  - Attributes are grouped into eight fixed, named groups.
  - The skincare and grooming rule chains add their texts in fixed order.
  - The summary is built section by section, with the "a, b and c" enumeration.
  - Each attribute gets a sentence from a description table.
  - The classifier's `{"probability", "predicted"}` records are converted to 0/1.
  - `generate_summary` composes these steps and has an error result.
- **The local fallback of the Gemini module** (`GeminiFallback`). This is what
  runs when the language model is off or fails:
  - the code-fence cleaner for model replies;
  - the one-paragraph summary;
  - the five content buckets with their caps and default sentences;
  - the completion of a parsed reply's missing keys;
  - the `<li>` list formatter;
  - the `> 0.7` attractiveness gate of the HTML report.
- **Face-box selection** (`FaceCrop`). The largest detector candidate is chosen,
  widened by a truncated fraction of its size and clamped to the image. The
  upload endpoint maps a crop failure to an HTTP status.
- **Report text parsing** (`Report`). This covers bullet-point conversion and the
  split of a summary into titled sections.
- **Google Drive links and `.env` updates** (`DriveLinks`, `ModelUrlSetup`,
  `LoaderUrlSetup`):
  - share-link rewriting and file-ID extraction;
  - the decision whether to download at all;
  - the regular-expression update of `MODEL_DOWNLOAD_URL` in the `.env` text;
  - the in-place line update of `MODEL_LOADER_URL`.

Shared modules:

- `PyValue` holds Python dicts as ordered association lists, since dict order is
  visible in every output here. It also holds dynamic JSON values, with Python's
  `==`, `is True` and truthiness written out.
- `PyStr` holds Python's `strip`, `startswith`, `find`, `in`, `split`, `join` and
  `replace` on strings.

Where the source builds a result step by step, the model is a method with that
loop or if-chain. Each such method is proved equal to a specification function:
a rule table, a comprehension or a recursive definition. The properties the
source promises are then proved about that function.

## Model

| member | source | states |
|---|---|---|
| AttributeInterpreter.PresentKeys | attribute_interpreter_v2.py:24 | a key is selected for a group exactly when it is one of the group's listed keys and the input has it |
| AttributeInterpreter.GroupValuesExact | attribute_interpreter_v2.py:24 | a group's dict holds exactly its listed keys that the input has, in list order, each with the input's own value |
| AttributeInterpreter.GroupEmptyIff | attribute_interpreter_v2.py:24-26 | a group's selection is empty exactly when the input has none of its keys |
| AttributeInterpreter.GroupAttributes | attribute_interpreter_v2.py:9-27 | the loop over the groups builds the grouped dict, adding a group only when its selection is non-empty |
| AttributeInterpreter.GroupedNames | attribute_interpreter_v2.py:22-27 | every entry is named after a group already visited, and a group not yet visited is absent, so each assignment appends |
| AttributeInterpreter.DistinctGroupNames | attribute_interpreter_v2.py:11-20 | the eight group names are pairwise distinct |
| AttributeInterpreter.GroupedPrefix | attribute_interpreter_v2.py:23-26 | what the first m groups produce stays unchanged at the front of what later groups produce |
| AttributeInterpreter.GroupAt | attribute_interpreter_v2.py:23-26 | a group with a present key sits right after the entries of the groups declared before it |
| AttributeInterpreter.GroupsInDeclarationOrder | attribute_interpreter_v2.py:11-27 | of two present groups, the one declared first comes first |
| AttributeInterpreter.GroupedGrows | attribute_interpreter_v2.py:22-26 | a group with one of its keys present adds an entry, and later groups never remove one |
| AttributeInterpreter.NamedEntryIsGroup | attribute_interpreter_v2.py:23-26 | every output entry is some group's name with that group's non-empty selection |
| AttributeInterpreter.GroupPresentIff | attribute_interpreter_v2.py:22-27 | a group appears iff the input has at least one of its keys, and its value is then exactly its selection |
| AttributeInterpreter.FiredTipsLength | attribute_interpreter_v2.py:57-82 | with n texts per rule, n texts are added per rule that fires |
| AttributeInterpreter.FiredCountBound | attribute_interpreter_v2.py:57-82 | no more rules fire than the chain has |
| AttributeInterpreter.AbsentFiresNothing | attribute_interpreter_v2.py:29-55 | a chain whose attributes are all absent adds nothing: there is no default text |
| AttributeInterpreter.NothingFiredIff | attribute_interpreter_v2.py:29-55 | a chain adds nothing exactly when none of its conditions holds |
| AttributeInterpreter.FiredTipsOfThree | attribute_interpreter_v2.py:29-55 | a three-rule chain is the concatenation of its three blocks in order |
| AttributeInterpreter.SkincareRecommendations | attribute_interpreter_v2.py:29-55 | the if-chain gives exactly the texts of the skincare rule table |
| AttributeInterpreter.SkincareBlocks | attribute_interpreter_v2.py:33-55 | skincare tips are the oily_skin==1 block (4), then the clear_skin==0 block (3), then the dark_circles==1 block (3); the length follows; absent keys give nothing |
| AttributeInterpreter.GroomingRecommendations | attribute_interpreter_v2.py:57-82 | the if-chain gives exactly the texts of the grooming rule table (receeding_hairline, curly_hair, has_beard) |
| AttributeInterpreter.GroomingLength | attribute_interpreter_v2.py:57-82 | grooming tips number 3 times the rules fired, at most 3 rules |
| AttributeInterpreter.FacialBlocks | attribute_interpreter_v2.py:89-95 | the facial features are attractive, sharp_jawline, high_cheekbones in that order, each when it equals 1 |
| AttributeInterpreter.SkinBlocks | attribute_interpreter_v2.py:104-109 | the skin conditions are clear_skin, oily_skin, dark_circles in that order, each when it equals 1 |
| AttributeInterpreter.EnumerateVsJoin | attribute_interpreter_v2.py:99 | for two or more items the enumeration is the ", " join with the last separator replaced by " and " |
| AttributeInterpreter.Bullets | attribute_interpreter_v2.py:119 | one line per tip, line i being "• " followed by tip i |
| AttributeInterpreter.CreateNaturalSummary | attribute_interpreter_v2.py:84-148 | the summary is the "\n" join of the facial, skin, grooming, tips and closing sections in that order |
| AttributeInterpreter.AppendFacialAnalysis | attribute_interpreter_v2.py:88-99 | appends exactly the facial section |
| AttributeInterpreter.AppendSkinAnalysis | attribute_interpreter_v2.py:101-119 | appends exactly the skin section with its nested skincare bullets |
| AttributeInterpreter.AppendGrooming | attribute_interpreter_v2.py:121-125 | appends exactly the grooming section |
| AttributeInterpreter.AppendAdditionalTips | attribute_interpreter_v2.py:127-138 | appends exactly the additional-tips section |
| AttributeInterpreter.AppendClosing | attribute_interpreter_v2.py:140-146 | appends the Maintenance or Getting Started block |
| AttributeInterpreter.EqualsOnePresent | attribute_interpreter_v2.py:90 | an attribute equal to 1 is present in the input |
| AttributeInterpreter.FacialSectionIff | attribute_interpreter_v2.py:97-99 | "Facial Analysis:" and its sentence appear iff at least one facial feature equals 1 |
| AttributeInterpreter.FacialSentenceAllThree | attribute_interpreter_v2.py:99 | three features read "You have a, b and c." |
| AttributeInterpreter.FacialSentenceJawlineOnly | attribute_interpreter_v2.py:99 | a single feature is named on its own |
| AttributeInterpreter.SkinSectionIff | attribute_interpreter_v2.py:102-119 | the skin section appears iff the skin_condition group exists and a skin condition equals 1; the skincare heading follows the condition sentence when tips exist |
| AttributeInterpreter.UnclearSkinAloneSilent | attribute_interpreter_v2.py:102-119 | clear_skin==0 alone fires the skincare rule but adds no skin text to the summary |
| AttributeInterpreter.SkinGroupTestRedundant | attribute_interpreter_v2.py:103-111 | on the grouping of the same input, the group test adds nothing to the condition test |
| AttributeInterpreter.GroomingSectionShape | attribute_interpreter_v2.py:122-125 | the grooming section is absent iff no grooming rule fires, else a heading and 3 bullets per rule |
| AttributeInterpreter.TipsSectionIff | attribute_interpreter_v2.py:128-138 | Additional Tips (a heading and 3 bullets) appear iff male==1 |
| AttributeInterpreter.ClosingExactlyOnce | attribute_interpreter_v2.py:140-148 | the parts end with exactly one closing block, chosen by well_groomed==1, and no earlier part is a closing heading |
| AttributeInterpreter.SummaryEnding | attribute_interpreter_v2.py:140-148 | the summary text ends with the closing heading, a newline and its sentence |
| AttributeInterpreter.Sentence | attribute_interpreter_v2.py:154-158 | the table's sentence for the attribute and the value's decimal spelling when the table has one; otherwise exactly "For {attr}, value is {value}." |
| AttributeInterpreter.GenerateSentences | attribute_interpreter_v2.py:150-161 | one sentence per attribute in input order, each the table's or the default; details is the per-attribute dict of value and sentence |
| AttributeInterpreter.DetailsLookup | attribute_interpreter_v2.py:160 | each attribute's details entry holds its value and its own sentence |
| Summarizer.BinarySpec | summarizer.py:10-16 | the converted map has the input's keys in the input's order |
| Summarizer.ConvertToBinary | summarizer.py:5-16 | the loop preserves the key set and builds the converted map |
| Summarizer.GetBinary | summarizer.py:11-15 | each converted value is the conversion of the input's value under the same key |
| Summarizer.BinaryEqualsOne | summarizer.py:12-15 | a converted attribute equals 1 iff it was a record with a truthy "predicted" flag or a plain value equal to 1 |
| Summarizer.BinaryIdempotent | summarizer.py:12-15 | converting twice is converting once |
| Summarizer.BinaryIdentity | summarizer.py:14-15 | a map with no "predicted" records, such as an already binary one, is unchanged |
| Summarizer.GenerateSummary | summarizer.py:28-57 | raw_predictions is the input; summary, groups and tips come from the converted map; a non-dict input gives the "Error generating summary: " result with empty groups and tips |
| GeminiFallback.CleanJsonResponse | Gemini.py:531-544 | the step-by-step reassignment computes the cleaned reply |
| GeminiFallback.CleanFenceFree | Gemini.py:534-544 | a reply without fences is only stripped |
| GeminiFallback.CleanJsonFence | Gemini.py:536-544 | a "```json … ```" reply gives its stripped body |
| GeminiFallback.CleanPlainFence | Gemini.py:538-544 | a "``` … ```" reply gives its stripped body |
| GeminiFallback.TrueCues | Gemini.py:555-566 | at most one phrase per attribute |
| GeminiFallback.BitsAsWrittenSingle | Gemini.py:567 | as written, a single phrase joins to " and " + phrase |
| GeminiFallback.BitsCorrected | Gemini.py:567 | the corrected join names one phrase on its own and agrees with the source for two or more |
| GeminiFallback.LocalSummaryNeutral | Gemini.py:568-575 | with no phrase and no extra sentence the summary, as written and corrected, is "Your image has been analyzed for key facial attributes." |
| GeminiFallback.LocalSummaryOnePhrase | Gemini.py:567-575 | as written, one phrase X gives "You appear  and X." |
| GeminiFallback.LocalSummaryCorrectedOnePhrase | Gemini.py:567-575 | with the corrected join, one phrase X gives "You appear X." |
| GeminiFallback.RawOneDoesNotCount | Gemini.py:550-566 | an attribute given as the integer 1 adds no phrase: only `True` counts, and male then adds neither word |
| GeminiFallback.TrueCuesMember | Gemini.py:555-566 | a phrase is chosen only if its attribute is `True` |
| GeminiFallback.PredCues | Gemini.py:605-622 | at most one sentence per rule |
| GeminiFallback.Take | Gemini.py:625-630 | a cap keeps a list within the cap whole and cuts a longer one to its first n items |
| GeminiFallback.OrDefault | Gemini.py:625-629 | an empty bucket becomes the one default sentence, a non-empty one is kept; never empty |
| GeminiFallback.ContentDict | Gemini.py:624-631 | the content dict has exactly the six keys in order |
| GeminiFallback.LocalContent | Gemini.py:594-631 | the appends build exactly the rule-table content |
| GeminiFallback.SkincareBucket | Gemini.py:605-608 | skincare: oily_skin then dark_circles |
| GeminiFallback.GroomingBucket | Gemini.py:609-612 | grooming: curly_hair then has_beard |
| GeminiFallback.PositiveBucket | Gemini.py:613-618 | positives: sharp_jawline, big_eyes, attractive |
| GeminiFallback.ImproveBucket | Gemini.py:619-622 | improve: patchy_beard then receeding_hairline |
| GeminiFallback.ContentKeysDistinct | Gemini.py:647-650 | the six required keys are distinct |
| GeminiFallback.BucketOfTwo | Gemini.py:605-629 | a two-rule bucket under a cap of at least two is its default exactly when neither attribute is predicted, else its sentences uncut |
| GeminiFallback.BucketOfThree | Gemini.py:613-628 | a three-rule bucket under a cap of at least three is its default exactly when no attribute is predicted, else its sentences uncut |
| GeminiFallback.ContentDictShape | Gemini.py:624-631 | each key once, each list under its key capped and (the four advice lists) defaulted, the comment empty |
| GeminiFallback.LocalContentShape | Gemini.py:605-631 | exactly the six keys, the empty comment, the one disclaimer, and each of the four advice lists its default exactly when none of its attributes is predicted, else its predicted sentences in order |
| GeminiFallback.LocalContentDefaults | Gemini.py:605-629 | with no attribute predicted every advice list is its default sentence |
| GeminiFallback.MissingEntries | Gemini.py:651-656 | only required keys missing from the reply are added |
| GeminiFallback.MissingEntriesSnoc | Gemini.py:651-656 | each key adds its default exactly when the reply lacks it |
| GeminiFallback.CompleteContent | Gemini.py:651-656 | the loop appends the missing entries in key order |
| GeminiFallback.CompletionProperties | Gemini.py:647-658 | the reply stays a prefix, every required key is present, present keys are untouched, missing ones get [] or "", and other keys are unchanged |
| GeminiFallback.MissingEntriesHas | Gemini.py:651-656 | a missing required key gets its default |
| GeminiFallback.GenerateContent | Gemini.py:633-661 | when disabled or when the call fails, the local content; otherwise the parsed, cleaned reply completed or replaced by the fallback |
| GeminiFallback.ContentOfReply | Gemini.py:646-661 | a parsed dict is completed with the missing keys, a value that answers every key is kept, anything else gives the local content |
| GeminiFallback.ContentAnswersAll | Gemini.py:645-661 | whatever `generate_content` returns answers every required key |
| GeminiFallback.LocalContentAnswers | Gemini.py:623-631 | the local content answers every required key |
| GeminiFallback.ListLines | Gemini.py:668-673 | at most one line per item |
| GeminiFallback.FormatListItems | Gemini.py:663-675 | the loop gives the "\n" join of the lines, or the placeholder when there are none |
| GeminiFallback.ListLinesSnoc | Gemini.py:669-673 | an item adds its stripped `<li>` line exactly when it is not blank |
| GeminiFallback.ListLinesIff | Gemini.py:665-675 | no lines iff every item is blank; every non-blank item has its line and every line comes from one |
| GeminiFallback.AttractivenessGate | Gemini.py:690-693 | a gate exists only for dict content and a readable probability |
| GeminiFallback.GateThreshold | Gemini.py:690-693 | the section is hidden iff the probability is <= 0.7; the comment is copied only when it is > 0.7 |
| GeminiFallback.GateMissingAttribute | Gemini.py:690-693 | a missing attribute counts as probability 0: hidden, empty comment |
| GeminiFallback.GateEmptyComment | Gemini.py:693 | an empty comment in the content stays empty |
| GeminiFallback.GateOnLocalContent | Gemini.py:627 | the local content never shows a comment |
| FaceCrop.LargestIndex | temp.py:33 | the chosen box has the largest area, and every earlier box a smaller one (the stable sort's first) |
| FaceCrop.LargestUnique | temp.py:33 | those two properties determine the choice |
| FaceCrop.Trunc | temp.py:36-37 | `int()` truncates toward zero |
| FaceCrop.NonNegativeExpand | temp.py:36-37 | a non-negative ratio moves a side by between 0 and ratio times the size |
| FaceCrop.ThirtyPercent | temp.py:36-37 | with ratio 0.3 a 100-pixel side moves 30 pixels and an 81-pixel side 24 |
| FaceCrop.CropRect | temp.py:39-42 | the crop lies within the image: 0 <= x1, 0 <= y1, x2 <= width, y2 <= height |
| FaceCrop.CropContainsBox | temp.py:39-42 | for a box inside the image and a non-negative ratio, the crop contains the box |
| FaceCrop.CropUnclamped | temp.py:36-42 | where the widened box fits, the crop is the box moved out by the expansions |
| FaceCrop.CropFace | temp.py:16-51 | a crop happens iff the file exists, the image decodes and a face is detected; it returns the output path |
| FaceCrop.CropFaceOutcomes | temp.py:16-51 | a missing file is reported first; no candidates is the "no face" error; a success crops the largest face within the image |
| FaceCrop.HttpFailure | app.py:98-105 | status 400 with "face is not visible please try again" exactly for the no-face error; otherwise 500 with a detail starting "Cropping failed: " |
| Report.BulletLines | report_generator.py:69-73 | one output line per input line, each converted on its own |
| Report.FixBulletPoints | report_generator.py:65-74 | the loop gives the `<br/>` join of the converted lines |
| Report.BulletLineIff | report_generator.py:70-73 | a line changes beyond stripping iff its stripped text starts with the bullet, and then reads "&bull; " plus the stripped rest |
| Report.BulletTextOneLine | report_generator.py:67-74 | text without a newline is one converted line |
| Report.SectionOfParts | report_generator.py:108-121 | a piece is cut at its first colon into a stripped title with the colon put back and stripped content, bullet-formatted only when it holds the bullet |
| Report.SectionsOf | report_generator.py:107-125 | at most one section per piece |
| Report.ReportSections | report_generator.py:100-125 | the sections of the unescaped summary split on blank lines; no summary gives none and a non-string summary fails |
| Report.AppendSections | report_generator.py:107-125 | the loop gives, in order, the section of each piece that holds a colon, cut at its first colon |
| Report.TitlesEndWithColon | report_generator.py:108-115 | every title ends with its one colon |
| Report.TitleOfPiece | report_generator.py:110-115 | one piece's title ends with a colon and holds no other |
| Report.NoSectionsIff | report_generator.py:107-108 | no sections iff no piece contains a colon |
| Report.SectionsForCases | report_generator.py:100-105 | a non-dict, a dict without "summary", or an empty summary gives no sections |
| DriveLinks.FileFormId | download_model.py:40 | the ID holds no "/" |
| DriveLinks.FileFormIdSegment | download_model.py:40 | the ID is the text after the first "/file/d/" up to the next "/" |
| DriveLinks.ParamId | download_model.py:70 | the ID holds no "&" |
| DriveLinks.ExtractFileId | download_model.py:66-70 | an ID is found iff the link holds "/file/d/" or "id=" |
| DriveLinks.DownloadUrl | download_model.py:38-42 | a link is changed only if it holds both "drive.google.com" and "/file/d/" |
| DriveLinks.DownloadUrlIdempotent | download_model.py:38-42 | rewriting twice is rewriting once |
| DriveLinks.DownloadUrlOfShareLink | download_model.py:38-41 | a share link becomes the export prefix followed by its first "/file/d/" segment |
| DriveLinks.ExtractAfterRewrite | download_model.py:66-73 | the downloader extracts the share link's ID back from the rewritten link, if that ID has no "&" or "id=" |
| DriveLinks.ModelFetch | download_model.py:64-95 | gdown is used iff it imports and a non-empty ID is found, with the "uc?id=" link; otherwise requests gets the link itself |
| DriveLinks.LoaderFetch | download_code.py:34-63 | the "uc?id=" link when gdown imports and a non-empty ID is found; none, and no download, otherwise |
| DriveLinks.FileFormFirst | download_code.py:39-42 | the "/file/d/" form wins over an "id=" parameter |
| DriveLinks.ParamForm | download_code.py:41-42 | otherwise the ID is the text after the first "id=" up to the first "&" |
| DriveLinks.EnsureModel | download_model.py:153-172 | the file is kept, with no download, exactly when it exists with at least 1 MB; otherwise an empty or placeholder URL refuses, and any other URL is downloaded through its rewritten link |
| DriveLinks.EnsureModelLoader | download_code.py:78-92 | a download is attempted iff the file is missing and the URL is set, with the URL unchanged |
| ModelUrlSetup.MatchAt | setup_model_url.py:41 | a match is longer than the opening and ends within the text |
| ModelUrlSetup.MatchAtShape | setup_model_url.py:41 | a match is the opening, a value without quotes and the closing quote |
| ModelUrlSetup.SubstituteNoMatch | setup_model_url.py:39-43 | text where the quoted assignment never starts is unchanged |
| ModelUrlSetup.SubstituteAfterLines | setup_model_url.py:43 | whole lines without the assignment are kept |
| ModelUrlSetup.SubstituteReplace | setup_model_url.py:43 | a match is replaced and the scan resumes after it |
| ModelUrlSetup.MatchAssignment | setup_model_url.py:41-42 | a quoted assignment matches up to its closing quote |
| ModelUrlSetup.ReplaceAssignment | setup_model_url.py:39-43 | the assignment gets the new link and all other text is unchanged |
| ModelUrlSetup.UpdateModelUrl | setup_model_url.py:13-46 | text is written iff the link holds "drive.google.com" and `.env` or `.env.example` exists |
| ModelUrlSetup.UpdateRefusals | setup_model_url.py:17-32 | a non-Drive link is refused before the files; no `.env` and no template is refused |
| ModelUrlSetup.UpdateAppends | setup_model_url.py:44-46 | without the key, the content is followed by exactly the comment block and assignment |
| ModelUrlSetup.UpdateUnquotedUnchanged | setup_model_url.py:39-43 | a key present only unquoted leaves the content unchanged, with nothing appended |
| ModelUrlSetup.UpdateReplaces | setup_model_url.py:39-43 | one quoted assignment gets the new link and nothing else changes |
| LoaderUrlSetup.FirstKeyLine | setup_model_loader_url.py:51-52 | the first line starting with the key, or none |
| LoaderUrlSetup.SetupModelLoaderUrl | setup_model_loader_url.py:26-66 | nothing is written iff the answer is blank, or not a Drive link and not confirmed; otherwise the updated lines |
| LoaderUrlSetup.FirstKeyAt | setup_model_loader_url.py:51-55 | the loop's break point is the first key line |
| LoaderUrlSetup.ReplaceFirstOnly | setup_model_loader_url.py:51-55 | only the first key line becomes the assignment; all other lines and the count stay |
| LoaderUrlSetup.AppendWhenMissing | setup_model_loader_url.py:58-62 | the old lines are a prefix, then "\n" if the last line lacked it, then the comment and the assignment |
| LoaderUrlSetup.NoEnvFile | setup_model_loader_url.py:43-62 | with no `.env` the result is exactly the comment and the assignment |

## Left out

- File, network and terminal I/O are not modelled: reading and writing `.env`,
  the JSON and image files, the `gdown` and `requests` downloads with their chunk
  loop and file-size checks, the `input()` prompts and all printing. The contents
  of the files, the answers at the prompts and the file sizes are parameters.
- The Gemini API calls, the configuration flag and the prompts are foreign calls.
  `GenerateContent` takes the flag, the reply text and the JSON parser as
  parameters.
- The attribute classifier, the OpenCV detector, image decoding and `imwrite` are
  foreign code. The detector's candidates and the image size are parameters, and
  `FaceCrop.HttpFailure` takes the message of an unreadable image's error as a
  parameter.
- The FastAPI routes, temporary files, ReportLab rendering, the HTML template and
  the clock are rendering, framework and I/O code.
- FaceCrop.Expand: the ratio is an exact real, so the float rounding of `h * 0.3`
  is not modelled.
- AttributeInterpreter.GenerateSentences: attribute values are integers, so
  Python's `round` of a float probability is not modelled.
- AttributeInterpreter.CreateNaturalSummary: the `mapping` parameter is unused by
  the source and left out.
- GeminiFallback.FormatListItems: items are strings, so `str()` of a non-string
  list item is not modelled.
- GeminiFallback.AttractivenessGate: `attractive_score`, the float rounding of
  `probability * 10`, is presentation only and left out.
- ModelUrlSetup.Substitute: the replacement text is inserted literally, so the
  backslash escapes `re.sub` would process in a link are not modelled.
- ModelUrlSetup.ReplaceAssignment: proved for one assignment whose preceding lines
  neither hold the opening `MODEL_DOWNLOAD_URL="` nor end mid-line. Other layouts
  are covered by `Substitute` itself, not by a lemma.
- LoaderUrlSetup.SetupModelLoaderUrl: the lower-cased confirmation answer is a
  boolean parameter.
- DriveLinks.ParamForm: the code takes `split("id=")[1]`, so the ID also stops at
  a second "id=", not only at the first "&". The model follows the code.
- Python dicts with duplicate keys cannot occur. Where a contract needs this it
  requires `DistinctKeys`, and the association-list model does not enforce it.

## Findings

| source | as written | input that shows it | evidently intended | confidence | as-written member | corrected member |
|---|---|---|---|---|---|---|
| Gemini.py:567 | `", ".join(attrs[:-1]) + (" and " + attrs[-1] if attrs else "")` puts " and " before a single phrase | `{"male": {"predicted": true}}` gives "You appear  and male." | "You appear male." (the "a, b and c" enumeration, one phrase on its own) | not executed | GeminiFallback.LocalSummaryOnePhrase | GeminiFallback.LocalSummaryCorrectedOnePhrase |
