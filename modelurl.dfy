/**
 * `update_model_url_in_env`: the new `.env` text. An existing quoted
 * `MODEL_DOWNLOAD_URL="…"` assignment gets the new link through a regular
 * expression substitution; with no mention of the key, an assignment is
 * appended. Reading and writing the files is outside the model: the contents of
 * `.env` and `.env.example` are parameters and the text to write is the result.
 */
module ModelUrlSetup {
  import opened Optional
  import opened PyStr
  import DriveLinks

  const Key := "MODEL_DOWNLOAD_URL"
  /** What the pattern `MODEL_DOWNLOAD_URL="[^"]*"` must start with. */
  const Opening := "MODEL_DOWNLOAD_URL=\""

  /** `f'MODEL_DOWNLOAD_URL="{url}"'`. */
  function Assignment(url: string): string {
    Opening + url + "\""
  }

  /** The block appended when the key is missing. */
  function AppendedBlock(url: string): string {
    "\n\n# Google Drive Model Download URL\n" + Assignment(url) + "\n"
  }

  /** The length of the match of `MODEL_DOWNLOAD_URL="[^"]*"` at the start of `s`:
      the opening, then everything up to and including the next quote. `[^"]*` cannot
      cross a quote, so without a closing quote there is no match. */
  function MatchAt(s: string): (n: Option<nat>)
    ensures n.Some? ==> |Opening| < n.value <= |s|
  {
    if !StartsWith(s, Opening) then None
    else
      var rest := s[|Opening|..];
      match Find(rest, "\"")
      case None => None
      case Some(k) => Some(|Opening| + k + 1)
  }

  /** A match is the opening, a value without quotes and the closing quote. */
  lemma MatchAtShape(s: string)
    requires MatchAt(s).Some?
    ensures var n := MatchAt(s).value;
            s[..|Opening|] == Opening && s[n - 1] == '"' && !Contains(s[|Opening|..n - 1], "\"")
  {
    var rest := s[|Opening|..];
    var k := Find(rest, "\"").value;
    assert rest[k..k + 1] == "\"";
    assert s[|Opening|..|Opening| + k] == Before(rest, "\"");
  }

  /** `re.sub(pattern, repl, s)`: scanning left to right, each match is replaced by
      `repl` and the scan resumes after it; any other character is kept. */
  function Substitute(s: string, repl: string): string
    decreases |s|
  {
    if s == [] then []
    else match MatchAt(s)
      case Some(n) => repl + Substitute(s[n..], repl)
      case None => [s[0]] + Substitute(s[1..], repl)
  }

  /** Where no match starts, the character is kept and the scan moves on by one. */
  lemma SubstituteKeep(s: string, repl: string)
    requires s != [] && !StartsWith(s, Opening)
    ensures Substitute(s, repl) == [s[0]] + Substitute(s[1..], repl)
  {
  }

  /** A text that does not contain the opening does not start with it, nor does its tail. */
  lemma NotStartingHere(s: string)
    requires s != [] && !Contains(s, Opening)
    ensures !StartsWith(s, Opening) && !Contains(s[1..], Opening)
  {
    ContainsIff(s, Opening);
    assert OccursAt(s, Opening, 0) <==> StartsWith(s, Opening);
    ContainsSlice(s, 1, |s|, Opening);
    assert s[1..|s|] == s[1..];
  }

  /** A text in which the quoted assignment never starts is left as it is; in
      particular a key that only occurs unquoted is not touched. */
  lemma {:induction false} SubstituteNoMatch(s: string, repl: string)
    requires !Contains(s, Opening)
    ensures Substitute(s, repl) == s
    decreases |s|
  {
    if s != [] {
      NotStartingHere(s);
      SubstituteKeep(s, repl);
      SubstituteNoMatch(s[1..], repl);
    }
  }

  lemma OpeningHasNoNewline()
    ensures forall k :: 0 <= k < |Opening| ==> Opening[k] != '\n'
  {
  }

  /** No match starts inside whole lines that do not hold the opening. */
  lemma NoMatchInLines(a: string, b: string)
    requires a != [] && !Contains(a, Opening) && a[|a| - 1] == '\n'
    ensures !StartsWith(a + b, Opening)
  {
    var s := a + b;
    NotStartingHere(a);
    if |a| < |Opening| {
      OpeningHasNoNewline();
      assert s[|a| - 1] == '\n';
      if |s| >= |Opening| {
        assert s[..|Opening|][|a| - 1] == s[|a| - 1];
      }
    } else {
      assert s[..|Opening|] == a[..|Opening|];
    }
  }

  /** One character of such lines is kept, and the rest of the lines is again free of
      the opening and ends with a newline. */
  lemma AfterLinesHead(a: string, b: string, repl: string)
    requires a != [] && !Contains(a, Opening) && a[|a| - 1] == '\n'
    ensures Substitute(a + b, repl) == [a[0]] + Substitute(a[1..] + b, repl)
    ensures !Contains(a[1..], Opening) && (a[1..] == [] || a[1..][|a| - 2] == '\n')
  {
    NoMatchInLines(a, b);
    SubstituteKeep(a + b, repl);
    assert (a + b)[1..] == a[1..] + b;
    NotStartingHere(a);
  }

  /** Whole lines without the assignment in front of text that starts with it are kept
      as they are: no match can start inside them. */
  lemma {:induction false} SubstituteAfterLines(a: string, b: string, repl: string)
    requires !Contains(a, Opening) && (a == [] || a[|a| - 1] == '\n')
    ensures Substitute(a + b, repl) == a + Substitute(b, repl)
    decreases |a|, 1
  {
    if a == [] {
      assert a + b == b;
    } else {
      SubstituteAfterLinesCons(a, b, repl);
    }
  }

  /** The step of `SubstituteAfterLines` for non-empty lines: the first character is
      kept and the rest is handled the same way. */
  lemma {:induction false} SubstituteAfterLinesCons(a: string, b: string, repl: string)
    requires a != [] && !Contains(a, Opening) && a[|a| - 1] == '\n'
    ensures Substitute(a + b, repl) == a + Substitute(b, repl)
    decreases |a|, 0
  {
    AfterLinesHead(a, b, repl);
    SubstituteAfterLines(a[1..], b, repl);
    KeptHead(Substitute(a + b, repl), Substitute(a[1..] + b, repl), a, Substitute(b, repl));
  }

  /** Keeping the first character and then the rest keeps the whole. */
  lemma KeptHead(x: string, y: string, a: string, z: string)
    requires a != [] && x == [a[0]] + y && y == a[1..] + z
    ensures x == a + z
  {
    assert [a[0]] + a[1..] == a;
  }

  /** A match at the start replaces it and the scan resumes after it. */
  lemma SubstituteReplace(s: string, repl: string, n: nat)
    requires s != [] && MatchAt(s) == Some(n)
    ensures Substitute(s, repl) == repl + Substitute(s[n..], repl)
  {
  }

  /** A quoted assignment matches up to its closing quote. */
  lemma MatchAssignment(oldUrl: string, c: string)
    requires !Contains(oldUrl, "\"")
    ensures MatchAt(Assignment(oldUrl) + c) == Some(|Opening| + |oldUrl| + 1)
  {
    var b := Assignment(oldUrl) + c;
    assert b[..|Opening|] == Opening;
    var rest := b[|Opening|..];
    assert rest == oldUrl + "\"" + c;
    ContainsIff(oldUrl, "\"");
    forall j | 0 <= j < |oldUrl| ensures !OccursAt(rest, "\"", j) {
      assert rest[j..j + 1] == oldUrl[j..j + 1];
      assert !OccursAt(oldUrl, "\"", j);
    }
    assert rest[|oldUrl|..|oldUrl| + 1] == "\"";
    FindIs(rest, "\"", |oldUrl|);
  }

  /** One quoted assignment in a `.env` text: the lines before it and the text after it
      are kept, and the assignment, whatever its old value, becomes the new one. */
  lemma ReplaceAssignment(a: string, oldUrl: string, c: string, url: string)
    requires !Contains(a, Opening) && (a == [] || a[|a| - 1] == '\n')
    requires !Contains(oldUrl, "\"") && !Contains(c, Opening)
    ensures Substitute(a + Assignment(oldUrl) + c, Assignment(url)) == a + Assignment(url) + c
  {
    var b := Assignment(oldUrl) + c;
    var r := Assignment(url);
    assert Substitute(a + b, r) == a + Substitute(b, r) by {
      SubstituteAfterLines(a, b, r);
    }
    assert Substitute(b, r) == r + c by {
      var n := |Opening| + |oldUrl| + 1;
      MatchAssignment(oldUrl, c);
      SubstituteReplace(b, r, n);
      assert b[n..] == c;
      SubstituteNoMatch(c, r);
    }
    assert a + Assignment(oldUrl) + c == a + b;
    assert a + (r + c) == a + r + c;
  }

  /** Why no `.env` text is produced. */
  datatype Refusal = NotDriveLink | NoTemplate

  /** `update_model_url_in_env(url)`: `env` and `example` are the contents of `.env`
      and `.env.example` when those files exist; the result is the text written to
      `.env`. */
  function UpdateModelUrl(url: string, env: Option<string>, example: Option<string>): (r: Result)
    ensures r.Written? <==> Contains(url, DriveLinks.DriveHost) && (env.Some? || example.Some?)
  {
    if !Contains(url, DriveLinks.DriveHost) then Refused(NotDriveLink)
    else
      var content := if env.Some? then env.value else if example.Some? then example.value else "";
      if env.None? && example.None? then Refused(NoTemplate)
      else if Contains(content, Key) then Written(Substitute(content, Assignment(url)))
      else Written(content + AppendedBlock(url))
  }

  datatype Result = Written(text: string) | Refused(reason: Refusal)

  /** The link is checked before anything else, and a missing template is reported only
      when `.env` is missing too. */
  lemma UpdateRefusals(url: string, env: Option<string>, example: Option<string>)
    ensures !Contains(url, DriveLinks.DriveHost) ==> UpdateModelUrl(url, env, example) == Refused(NotDriveLink)
    ensures Contains(url, DriveLinks.DriveHost) && env.None? && example.None? ==>
              UpdateModelUrl(url, env, example) == Refused(NoTemplate)
  {
  }

  /** A `.env` (or template) that never mentions the key gets exactly the block appended. */
  lemma UpdateAppends(url: string, content: string)
    requires Contains(url, DriveLinks.DriveHost) && !Contains(content, Key)
    ensures UpdateModelUrl(url, Some(content), None) == Written(content + AppendedBlock(url))
    ensures UpdateModelUrl(url, None, Some(content)) == Written(content + AppendedBlock(url))
  {
  }

  /** A `.env` that mentions the key only unquoted (`MODEL_DOWNLOAD_URL=…`) is written
      back unchanged, and nothing is appended. */
  lemma UpdateUnquotedUnchanged(url: string, content: string)
    requires Contains(url, DriveLinks.DriveHost) && Contains(content, Key) && !Contains(content, Opening)
    ensures UpdateModelUrl(url, Some(content), None) == Written(content)
  {
    SubstituteNoMatch(content, Assignment(url));
  }

  /** A `.env` holding one quoted assignment gets the new link there and nothing else
      changes. */
  lemma UpdateReplaces(url: string, a: string, oldUrl: string, c: string)
    requires Contains(url, DriveLinks.DriveHost)
    requires !Contains(a, Opening) && (a == [] || a[|a| - 1] == '\n')
    requires !Contains(oldUrl, "\"") && !Contains(c, Opening)
    ensures UpdateModelUrl(url, Some(a + Assignment(oldUrl) + c), None) == Written(a + Assignment(url) + c)
  {
    var content := a + Assignment(oldUrl) + c;
    assert content[|a|..|a| + |Key|] == Key;
    ContainsIff(content, Key);
    assert OccursAt(content, Key, |a|);
    ReplaceAssignment(a, oldUrl, c, url);
  }
}
