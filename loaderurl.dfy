/**
 * `setup_model_loader_url`: the update of the `.env` lines. The first line that
 * starts with `MODEL_LOADER_URL` is overwritten in place; with no such line a
 * comment and an assignment are appended, after a newline when the file does not
 * end with one. The prompts are parameters and the file is the list of lines
 * `readlines()` gives and `writelines()` takes.
 */
module LoaderUrlSetup {
  import opened Optional
  import opened PyStr
  import DriveLinks

  const Key := "MODEL_LOADER_URL"
  const Comment := "\n# Google Drive Model Loader URL\n"

  /** `f'MODEL_LOADER_URL="{url}"\n'`. */
  function Assignment(url: string): string {
    Key + "=\"" + url + "\"\n"
  }

  /** The index of the first line that starts with the key. */
  function FirstKeyLine(lines: seq<string>): (i: Option<nat>)
    ensures i.Some? ==> i.value < |lines| && StartsWith(lines[i.value], Key)
    ensures i.Some? ==> forall j :: 0 <= j < i.value ==> !StartsWith(lines[j], Key)
    ensures i.None? ==> forall j :: 0 <= j < |lines| ==> !StartsWith(lines[j], Key)
  {
    if lines == [] then None
    else if StartsWith(lines[0], Key) then Some(0)
    else match FirstKeyLine(lines[1..])
      case None => None
      case Some(k) => Some(k + 1)
  }

  /** The lines after the update. */
  function UpdatedLines(lines: seq<string>, url: string): seq<string> {
    match FirstKeyLine(lines)
    case Some(i) => lines[i := Assignment(url)]
    case None =>
      (if lines != [] && !EndsWith(lines[|lines| - 1], "\n") then lines + ["\n"] else lines)
      + [Comment, Assignment(url)]
  }

  /** `setup_model_loader_url()`: `answer` is the link typed at the prompt, `confirmed`
      whether the answer to "Continue anyway?" is `y`, and `env` the lines of `.env`
      when it exists. The result is the lines written, or `None` when nothing is
      written. */
  method SetupModelLoaderUrl(answer: string, confirmed: bool, env: Option<seq<string>>)
    returns (written: Option<seq<string>>)
    ensures written.None? <==> Strip(answer) == "" || (!Contains(Strip(answer), DriveLinks.DriveHost) && !confirmed)
    ensures written.Some? ==> written.value == UpdatedLines(if env.Some? then env.value else [], Strip(answer))
  {
    var url := Strip(answer);
    if url == "" {
      return None;
    }
    if !Contains(url, DriveLinks.DriveHost) && !confirmed {
      return None;
    }
    var envLines: seq<string> := [];
    var modelLoaderExists := false;
    if env.Some? {
      envLines := env.value;
      var i := 0;
      while i < |envLines|
        invariant 0 <= i <= |envLines|
        invariant !modelLoaderExists ==> envLines == env.value
        invariant !modelLoaderExists ==> forall j :: 0 <= j < i ==> !StartsWith(envLines[j], Key)
        invariant modelLoaderExists ==> envLines == UpdatedLines(env.value, url)
      {
        if StartsWith(envLines[i], Key) {
          FirstKeyAt(envLines, i);
          envLines := envLines[i := Assignment(url)];
          modelLoaderExists := true;
          break;
        }
        i := i + 1;
      }
      if !modelLoaderExists {
        assert FirstKeyLine(envLines).None?;
      }
    }
    if !modelLoaderExists {
      if envLines != [] && !EndsWith(envLines[|envLines| - 1], "\n") {
        envLines := envLines + ["\n"];
      }
      envLines := envLines + [Comment];
      envLines := envLines + [Assignment(url)];
    }
    return Some(envLines);
  }

  /** A line starting with the key that has none before it is the one found. */
  lemma FirstKeyAt(lines: seq<string>, i: nat)
    requires i < |lines| && StartsWith(lines[i], Key)
    requires forall j :: 0 <= j < i ==> !StartsWith(lines[j], Key)
    ensures FirstKeyLine(lines) == Some(i)
  {
  }

  /** Replacing: only the first line with the key changes, into the new assignment;
      every other line, later matches included, stays, and the number of lines is the
      same. */
  lemma ReplaceFirstOnly(lines: seq<string>, url: string)
    requires FirstKeyLine(lines).Some?
    ensures var i := FirstKeyLine(lines).value;
            var r := UpdatedLines(lines, url);
            |r| == |lines| && r[i] == Assignment(url)
            && (forall j :: 0 <= j < |lines| && j != i ==> r[j] == lines[j])
            && (forall j :: 0 <= j < i ==> !StartsWith(lines[j], Key))
  {
  }

  /** Appending: the old lines come first, then a newline if the last one lacked it,
      then exactly the comment and the assignment. */
  lemma AppendWhenMissing(lines: seq<string>, url: string)
    requires forall j :: 0 <= j < |lines| ==> !StartsWith(lines[j], Key)
    ensures var r := UpdatedLines(lines, url);
            r[..|lines|] == lines
            && (lines != [] && !EndsWith(lines[|lines| - 1], "\n") ==> r[|lines|..] == ["\n", Comment, Assignment(url)])
            && (lines == [] || EndsWith(lines[|lines| - 1], "\n") ==> r[|lines|..] == [Comment, Assignment(url)])
  {
  }

  /** Without a `.env` file the written file is exactly the comment and the assignment. */
  lemma NoEnvFile(url: string)
    ensures UpdatedLines([], url) == [Comment, Assignment(url)]
  {
  }
}
