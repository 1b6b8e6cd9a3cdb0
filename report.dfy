/**
 * The text handling of the PDF report: `fix_bullet_points`, which turns the
 * lines of a section into ReportLab markup, and the loop of `generate_report`
 * that cuts the summary into titled sections. The paragraphs and the document
 * itself are outside the model; a section is the pair of texts the report
 * renders.
 */
module Report {
  import opened Optional
  import opened PyStr
  import opened PyValue

  const Bullet: char := '\U{2022}'

  /** One line of `fix_bullet_points`: a stripped line that starts with the bullet
      character becomes `&bull; ` and the rest, stripped again; any other line is
      only stripped. */
  function BulletLine(line: string): string {
    var s := Strip(line);
    if |s| > 0 && s[0] == Bullet then "&bull; " + Strip(s[1..]) else s
  }

  /** The formatted segment of each line, in order. */
  function BulletLines(lines: seq<string>): (r: seq<string>)
    ensures |r| == |lines|
    ensures forall i :: 0 <= i < |lines| ==> r[i] == BulletLine(lines[i])
  {
    seq(|lines|, i requires 0 <= i < |lines| => BulletLine(lines[i]))
  }

  /** What `fix_bullet_points(text)` returns. */
  function BulletText(text: string): string {
    Join("<br/>", BulletLines(Split(text, "\n")))
  }

  /** `CelebAnalysisReport.fix_bullet_points(text)`. */
  method FixBulletPoints(text: string) returns (html: string)
    ensures html == BulletText(text)
  {
    var lines := Split(text, "\n");
    var formattedLines: seq<string> := [];
    for i := 0 to |lines|
      invariant formattedLines == BulletLines(lines[..i])
    {
      BulletLinesStep(lines, i);
      var line := Strip(lines[i]);
      if |line| > 0 && line[0] == Bullet {
        formattedLines := formattedLines + ["&bull; " + Strip(line[1..])];
      } else {
        formattedLines := formattedLines + [line];
      }
    }
    assert lines[..|lines|] == lines;
    html := Join("<br/>", formattedLines);
  }

  /** One loop step: the next line's segment is appended. */
  lemma BulletLinesStep(lines: seq<string>, i: nat)
    requires i < |lines|
    ensures BulletLines(lines[..i + 1]) == BulletLines(lines[..i]) + [BulletLine(lines[i])]
  {
    var longer := BulletLines(lines[..i + 1]);
    var shorter := BulletLines(lines[..i]);
    forall j | 0 <= j < i ensures longer[j] == shorter[j] {
      assert lines[..i + 1][j] == lines[..i][j];
    }
    assert lines[..i + 1][i] == lines[i];
  }

  /** A line changes beyond stripping exactly when its stripped text starts with the
      bullet character, and then it becomes the `&bull;` entity and the stripped rest;
      a bullet character anywhere else leaves the line as stripped. */
  lemma BulletLineIff(line: string)
    ensures var s := Strip(line);
            (BulletLine(line) != s <==> StartsWith(s, [Bullet]))
            && (StartsWith(s, [Bullet]) ==> BulletLine(line) == "&bull; " + Strip(s[1..]))
  {
    var s := Strip(line);
    if StartsWith(s, [Bullet]) {
      var r := "&bull; " + Strip(s[1..]);
      assert r[0] == '&' && s[0] == Bullet;
    }
  }

  /** A text of one line is one segment: no `<br/>` is added. */
  lemma BulletTextOneLine(text: string)
    requires !Contains(text, "\n")
    ensures BulletText(text) == BulletLine(text)
  {
    assert Split(text, "\n") == [text];
  }

  /** A section as the report renders it: the title with its colon, and the content. */
  datatype Section = Section(title: string, content: string)

  /** The section made of a piece that contains a colon: the text before the first
      colon, stripped, with the colon put back, and the text after it, stripped, with
      bullets formatted when it holds the bullet character. */
  function SectionOf(piece: string): Section
    requires Contains(piece, ":")
  {
    var k := Find(piece, ":").value;
    var content := Strip(piece[k + 1..]);
    Section(Strip(piece[..k]) + ":", if Contains(content, [Bullet]) then BulletText(content) else content)
  }

  /** A piece is cut at its first colon: whatever text precedes the colon becomes the
      title and whatever follows becomes the content, each stripped. */
  lemma SectionOfParts(a: string, b: string)
    requires !Contains(a, ":")
    ensures Contains(a + ":" + b, ":")
    ensures var c := Strip(b);
            Contains(a + ":" + b, ":") && SectionOf(a + ":" + b) == Section(Strip(a) + ":", if Contains(c, [Bullet]) then BulletText(c) else c)
  {
    var s := a + ":" + b;
    forall j | 0 <= j < |a| ensures !OccursAt(s, ":", j) {
      assert s[j] == a[j];
      ContainsChar(a, j);
    }
    assert s[|a|..|a| + 1] == ":";
    FindIs(s, ":", |a|);
    assert s[..|a|] == a;
    assert s[|a| + 1..] == b;
  }

  /** The sections of the pieces, in order; a piece without a colon gives none. */
  function SectionsOf(pieces: seq<string>): (r: seq<Section>)
    ensures |r| <= |pieces|
  {
    if pieces == [] then []
    else
      var last := pieces[|pieces| - 1];
      SectionsOf(pieces[..|pieces| - 1]) + (if Contains(last, ":") then [SectionOf(last)] else [])
  }

  /** One more piece adds its section, if it has a colon. */
  lemma SectionsOfStep(pieces: seq<string>, i: nat)
    requires i < |pieces|
    ensures Contains(pieces[i], ":") ==> SectionsOf(pieces[..i + 1]) == SectionsOf(pieces[..i]) + [SectionOf(pieces[i])]
    ensures !Contains(pieces[i], ":") ==> SectionsOf(pieces[..i + 1]) == SectionsOf(pieces[..i])
  {
    assert pieces[..i + 1][..i] == pieces[..i];
  }

  /** The sections `generate_report` renders for `analysis_results`; `None` when it
      raises because the summary is not a string. */
  function SectionsFor(results: Value): Option<seq<Section>> {
    if !results.DictVal? || !HasKey(results.entries, "summary") then Some([])
    else
      match Get(results.entries, "summary").value
      case StrVal(summary) => Some(SectionsOf(Split(Replace(summary, "\\n", "\n"), "\n\n")))
      case _ => None
  }

  /** The section loop of `generate_report`. */
  method ReportSections(results: Value) returns (sections: Option<seq<Section>>)
    ensures sections == SectionsFor(results)
  {
    if !(results.DictVal? && HasKey(results.entries, "summary")) {
      return Some([]);
    }
    var summary := Get(results.entries, "summary").value;
    if !summary.StrVal? {
      return None;
    }
    var text := Replace(summary.s, "\\n", "\n");
    var pieces := Split(text, "\n\n");
    var elements := AppendSections(pieces);
    return Some(elements);
  }

  /** The `for section in sections` loop of `generate_report`: each piece with a colon
      gives its section, in order. */
  method AppendSections(pieces: seq<string>) returns (elements: seq<Section>)
    ensures elements == SectionsOf(pieces)
  {
    elements := [];
    for i := 0 to |pieces|
      invariant elements == SectionsOf(pieces[..i])
    {
      var section := pieces[i];
      SectionsOfStep(pieces, i);
      if Contains(section, ":") {
        var k := Find(section, ":").value;
        var title := Strip(section[..k]);
        var content := Strip(section[k + 1..]);
        var formattedContent := content;
        if Contains(content, [Bullet]) {
          formattedContent := FixBulletPoints(content);
        }
        assert Section(title + ":", formattedContent) == SectionOf(section);
        elements := elements + [Section(title + ":", formattedContent)];
      }
    }
    assert pieces[..|pieces|] == pieces;
  }

  /** Every title ends with its one colon: the text before it holds none. */
  lemma {:induction false} TitlesEndWithColon(pieces: seq<string>)
    ensures forall s :: s in SectionsOf(pieces) ==>
              EndsWith(s.title, ":") && !Contains(s.title[..|s.title| - 1], ":")
  {
    if pieces != [] {
      var last := pieces[|pieces| - 1];
      TitlesEndWithColon(pieces[..|pieces| - 1]);
      if Contains(last, ":") {
        TitleOfPiece(last);
      }
    }
  }

  lemma TitleOfPiece(piece: string)
    requires Contains(piece, ":")
    ensures var t := SectionOf(piece).title;
            EndsWith(t, ":") && !Contains(t[..|t| - 1], ":")
  {
    var k := Find(piece, ":").value;
    var head := piece[..k];
    assert head == Before(piece, ":");
    var before := Strip(head);
    var t := before + ":";
    LStripSpec(head);
    var l := LStrip(head);
    RStripSpec(l);
    assert head[|head| - |l|..|head|] == l;
    ContainsSlice(head, |head| - |l|, |head|, ":");
    ContainsSlice(l, 0, |before|, ":");
    assert t[..|t| - 1] == before;
    assert t[|t| - 1..] == ":";
  }

  /** The summary yields no section exactly when none of its pieces holds a colon. */
  lemma {:induction false} NoSectionsIff(pieces: seq<string>)
    ensures SectionsOf(pieces) == [] <==> forall i :: 0 <= i < |pieces| ==> !Contains(pieces[i], ":")
  {
    if pieces != [] {
      NoSectionsIff(pieces[..|pieces| - 1]);
      assert forall i :: 0 <= i < |pieces| - 1 ==> pieces[..|pieces| - 1][i] == pieces[i];
    }
  }

  /** A result that is not a dict, or has no summary, renders no sections; a summary
      without escaped newlines is split as it is. */
  lemma SectionsForCases(results: Value)
    ensures !results.DictVal? ==> SectionsFor(results) == Some([])
    ensures results.DictVal? && !HasKey(results.entries, "summary") ==> SectionsFor(results) == Some([])
    ensures results.DictVal? && Get(results.entries, "summary") == Some(StrVal("")) ==>
              SectionsFor(results) == Some([])
  {
    if results.DictVal? && Get(results.entries, "summary") == Some(StrVal("")) {
      ReplaceAbsent("", "\\n", "\n");
      assert Split("", "\n\n") == [""];
      assert !Contains("", ":");
    }
  }
}
