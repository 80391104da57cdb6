/** The pull-request message: the template written for the editor
    (`pr_msg_template`, src/gitpr.rs:288-303) and the parse of the edited file
    into a title and a body (`build_pr_msg`, src/gitpr.rs:158-186). */
module Message {
  import opened RustStr
  import opened PrTypes

  /** Where the message file lives unless the caller names one. */
  const DefaultMsgPath := ".git/PR_EDITMSG"

  /** The line that ends what the user wrote. */
  const Sentinel := "// Requesting a pull to"

  const NoTitle := "Unable to read title"

  /** The text `pr_msg_template` writes: two empty lines for the title and the
      description, then four comment lines, the first of them the sentinel. */
  function PrMsgTemplate(target: string, current: string): (msg: string)
    ensures StartsWith(msg, "\n\n" + Sentinel)
  {
    var footer := TemplateFooter(target, current);
    SentinelAfterBlankLines(footer);
    "\n" + ("\n" + (Sentinel + footer))
  }

  lemma SentinelAfterBlankLines(footer: string)
    ensures StartsWith("\n" + ("\n" + (Sentinel + footer)), "\n\n" + Sentinel)
  {
    Unprefix("\n\n" + Sentinel, footer);
    Assoc("\n\n", Sentinel, footer);
    Assoc("\n", "\n", Sentinel + footer);
  }

  /** The template after its sentinel prefix: the rest of the sentinel line
      and the three instruction lines. */
  function TemplateFooter(target: string, current: string): string {
    " " + target + " from " + current
      + "\n// Write a message for this pull request. The first line"
      + "\n// of text is the title and the rest is the description."
      + "\n// All lines beginning with // will be ignored"
  }

  predicate IsSentinel(line: string) {
    StartsWith(line, Sentinel)
  }

  /** The first index at or after `from` of a sentinel line, or `|ls|`. */
  function BodyEnd(ls: seq<string>, from: nat): (k: nat)
    requires from <= |ls|
    ensures from <= k <= |ls|
    ensures forall j :: from <= j < k ==> !IsSentinel(ls[j])
    ensures k < |ls| ==> IsSentinel(ls[k])
    decreases |ls| - from
  {
    if from == |ls| || IsSentinel(ls[from]) then from else BodyEnd(ls, from + 1)
  }

  /** What `build_pr_msg` makes of the file's text: the first line is the
      title; the lines after it, up to the first sentinel line, are glued
      together with nothing between them to make the body. */
  function ParseMsg(contents: string): (r: Result<PullRequestMsg>)
    ensures r.Err? <==> contents == []
    ensures r.Err? ==> r.error == Repo(NoTitle)
    ensures r.Ok? ==> r.value.title == Lines(contents)[0]
    ensures r.Ok? ==> '\n' !in r.value.title && '\n' !in r.value.body
  {
    var ls := Lines(contents);
    if ls == [] then Err(Repo(NoTitle))
    else
      var k := BodyEnd(ls, 1);
      ConcatExcludes(ls[1..k], '\n');
      Ok(PullRequestMsg(ls[0], Concat(ls[1..k])))
  }

  /** `k` is where the body of the lines `ls` ends: no sentinel line stands
      among the lines from the second up to `k`, and line `k`, if there is
      one, is a sentinel. */
  predicate BodyEndsAt(ls: seq<string>, k: nat) {
    1 <= k <= |ls|
    && (forall j :: 1 <= j < k ==> !IsSentinel(ls[j]))
    && (k == |ls| || IsSentinel(ls[k]))
  }

  /** What the parse means: it fails exactly when there is no line; otherwise
      the title is the first line and the body is the concatenation of the
      lines after it that come before the first sentinel line. */
  lemma ParseMsgMeaning(contents: string)
    ensures ParseMsg(contents).Err? <==> contents == []
    ensures ParseMsg(contents).Err? ==> ParseMsg(contents).error == Repo(NoTitle)
    ensures ParseMsg(contents).Ok? ==>
              exists k: nat :: BodyEndsAt(Lines(contents), k)
                && ParseMsg(contents).value == PullRequestMsg(Lines(contents)[0], Concat(Lines(contents)[1..k]))
  {
    var ls := Lines(contents);
    if ls != [] {
      var k := BodyEnd(ls, 1);
      assert BodyEndsAt(ls, k);
      assert ParseMsg(contents).value == PullRequestMsg(ls[0], Concat(ls[1..k]));
    }
  }

  /** `build_pr_msg`: the file at the path given, or at the default path
      when none is, is read with `readFile`. A read error is passed on as an
      I/O error; otherwise the title is taken and the remaining lines are
      drained until the sentinel. */
  method BuildPrMsg(msgPath: Option<string>, readFile: string -> ReadResult) returns (r: Result<PullRequestMsg>)
    ensures var read := readFile(if msgPath.Some? then msgPath.value else DefaultMsgPath);
            (read.ReadFailed? ==> r == Err(Io(read.cause)))
            && (read.Read? ==> r == ParseMsg(read.contents))
  {
    var path := match msgPath
      case Some(p) => p
      case None => DefaultMsgPath;
    var read := readFile(path);
    if read.ReadFailed? {
      return Err(Io(read.cause));
    }
    var lines := Lines(read.contents);
    if |lines| == 0 {
      return Err(Repo(NoTitle));
    }
    var title := lines[0];
    var body := "";
    var i := 1;
    while i < |lines| && !IsSentinel(lines[i])
      invariant 1 <= i <= |lines|
      invariant forall j :: 1 <= j < i ==> !IsSentinel(lines[j])
      invariant body == Concat(lines[1..i])
    {
      ConcatStep(lines, i);
      body := body + lines[i];
      i := i + 1;
    }
    ParseAt(read.contents, i);
    return Ok(PullRequestMsg(title, body));
  }

  /** Draining one more line adds it to the end of the body. */
  lemma ConcatStep(lines: seq<string>, i: nat)
    requires 1 <= i < |lines|
    ensures Concat(lines[1..i + 1]) == Concat(lines[1..i]) + lines[i]
  {
    ConcatAppend(lines[1..i], [lines[i]]);
    assert lines[1..i + 1] == lines[1..i] + [lines[i]];
  }

  /** Wherever the body ends, the parse takes the lines up to there. */
  lemma ParseAt(contents: string, k: nat)
    requires BodyEndsAt(Lines(contents), k)
    ensures ParseMsg(contents) == Ok(PullRequestMsg(Lines(contents)[0], Concat(Lines(contents)[1..k])))
  {
    BodyEndIs(Lines(contents), k);
  }

  /** The body ends at one place only. */
  lemma BodyEndIs(ls: seq<string>, k: nat)
    requires BodyEndsAt(ls, k)
    ensures BodyEnd(ls, 1) == k
  {
  }

  /** Text that starts with the sentinel has a sentinel first line. */
  lemma SentinelLines(x: string)
    ensures |Lines(Sentinel + x)| > 0 && IsSentinel(Lines(Sentinel + x)[0])
  {
    assert Sentinel != [] && PlainLine(Sentinel);
    FirstLineStartsWith(Sentinel, x);
  }

  /** A title line, a body line and an empty line, followed by text whose
      first line is a sentinel, parse to that title and body. */
  lemma ParseBeforeSentinel(title: string, body: string, rest: string)
    requires PlainLine(title) && PlainLine(body) && !IsSentinel(body)
    requires |Lines(rest)| > 0 && IsSentinel(Lines(rest)[0])
    ensures ParseMsg(title + "\n" + (body + "\n" + ("\n" + rest))) == Ok(PullRequestMsg(title, body))
  {
    assert PlainLine("") && !IsSentinel("");
    ParseTerminated(title, [body, ""], rest);
    assert [title] + [body, ""] == [title, body, ""];
    TerminatedThree(title, body, "");
    assert ("" + "\n") + rest == "\n" + rest;
    Assoc(body + "\n", "" + "\n", rest);
    Assoc(title + "\n", body + "\n" + ("" + "\n"), rest);
    ConcatPair(body, "");
    assert body + "" == body;
  }

  /** A one-line title and a one-line body written in front of the unedited
      template come back as that title and body: the template's own empty
      lines add nothing. */
  lemma WrittenAboveTemplate(title: string, body: string, target: string, current: string)
    requires PlainLine(title) && PlainLine(body) && !IsSentinel(body)
    ensures ParseMsg(title + "\n" + body + PrMsgTemplate(target, current)) == Ok(PullRequestMsg(title, body))
  {
    var rest := Sentinel + TemplateFooter(target, current);
    var x := "\n" + rest;
    assert PrMsgTemplate(target, current) == "\n" + x;
    Assoc(title + "\n", body, "\n" + x);
    Assoc(body, "\n", x);
    SentinelLines(TemplateFooter(target, current));
    ParseBeforeSentinel(title, body, rest);
  }

  /** The template with a title typed into its first empty line and a body
      typed into its second; with both left empty it is the template itself. */
  function FilledIn(title: string, body: string, target: string, current: string): (msg: string)
    ensures title == "" && body == "" ==> msg == PrMsgTemplate(target, current)
    ensures StartsWith(msg, title + "\n")
  {
    var rest := body + "\n" + (Sentinel + TemplateFooter(target, current));
    Unprefix(title + "\n", rest);
    title + "\n" + rest
  }

  /** Typing a one-line title and a one-line body into the template's two
      empty lines gives back exactly that title and body. */
  lemma FilledTemplate(title: string, body: string, target: string, current: string)
    requires PlainLine(title) && PlainLine(body) && !IsSentinel(body)
    ensures ParseMsg(FilledIn(title, body, target, current)) == Ok(PullRequestMsg(title, body))
  {
    var rest := Sentinel + TemplateFooter(target, current);
    SentinelLines(TemplateFooter(target, current));
    ParseTerminated(title, [body], rest);
    assert [title] + [body] == [title, body];
    TerminatedTwo(title, body);
    Assoc(body, "\n", rest);
    Assoc(title + "\n", body + "\n", rest);
    ConcatOne(body);
  }

  /** Text whose lines are two empty lines and then a sentinel line parses to
      an empty title and an empty body. */
  lemma ParseOfBlankLines(contents: string)
    requires var ls := Lines(contents);
             |ls| > 2 && ls[0] == "" && ls[1] == "" && IsSentinel(ls[2])
    ensures ParseMsg(contents) == Ok(PullRequestMsg("", ""))
  {
    var ls := Lines(contents);
    assert !IsSentinel(ls[1]);
    assert BodyEnd(ls, 1) == 2;
    assert ls[1..2] == [""];
    assert ParseMsg(contents) == Ok(PullRequestMsg(ls[0], Concat(ls[1..2])));
    ConcatOne("");
  }

  /** The template as written, left unedited, parses to an empty title and an
      empty body. */
  lemma UneditedTemplate(target: string, current: string)
    ensures ParseMsg(PrMsgTemplate(target, current)) == Ok(PullRequestMsg("", ""))
  {
    var rest := Sentinel + TemplateFooter(target, current);
    SentinelLines(TemplateFooter(target, current));
    LinesBlank(rest);
    LinesBlank("\n" + rest);
    ParseOfBlankLines(PrMsgTemplate(target, current));
  }

  /** A title line and description lines, none of them a sentinel, in front
      of text whose first line is a sentinel: the title comes back as written
      and the body is the description lines glued together. */
  lemma ParseTerminated(title: string, description: seq<string>, rest: string)
    requires PlainLine(title)
    requires forall k :: 0 <= k < |description| ==> PlainLine(description[k]) && !IsSentinel(description[k])
    requires |Lines(rest)| > 0 && IsSentinel(Lines(rest)[0])
    ensures ParseMsg(Terminated([title] + description) + rest) == Ok(PullRequestMsg(title, Concat(description)))
  {
    var ls := [title] + description;
    LinesAfterTerminated(ls, rest);
    var all := ls + Lines(rest);
    assert forall j :: 1 <= j < |ls| ==> all[j] == description[j - 1];
    assert all[|ls|] == Lines(rest)[0];
    assert BodyEnd(all, 1) == |ls|;
    assert all[1..|ls|] == description;
  }

  /** A title, an empty line, a body line, an empty line and then a sentinel
      line parse to that title and body: the empty line inside the
      description adds nothing. */
  lemma ParseWithBlankLines(title: string, body: string, last: string)
    requires PlainLine(title) && PlainLine(body) && !IsSentinel(body)
    requires last != [] && '\n' !in last && IsSentinel(last)
    ensures ParseMsg(title + "\n" + ("\n" + (body + "\n" + ("\n" + last)))) == Ok(PullRequestMsg(title, body))
  {
    assert PlainLine("") && !IsSentinel("");
    LinesSingle(last);
    ParseTerminated(title, ["", body, ""], last);
    assert [title] + ["", body, ""] == [title, "", body, ""];
    TerminatedFour(title, body, last);
    ConcatThree("", body, "");
    assert "" + (body + "") == body;
  }

  /** The edited file's layout as terminated lines. */
  lemma TerminatedFour(title: string, body: string, last: string)
    ensures Terminated([title, "", body, ""]) + last == title + "\n" + ("\n" + (body + "\n" + ("\n" + last)))
  {
    assert [title, "", body, ""][1..] == ["", body, ""];
    TerminatedThree("", body, "");
    assert "" + "\n" == "\n";
    var t := "\n" + (body + "\n" + "\n");
    assert Terminated([title, "", body, ""]) == title + "\n" + t;
    Assoc(title + "\n", t, last);
    Assoc("\n", body + "\n" + "\n", last);
    Assoc(body + "\n", "\n", last);
  }

  /** The unit test's edited file, "test title", an empty line, "this is a
      test msg body", an empty line and the sentinel line of a pull to master
      from feat, gives that title and body. */
  lemma EditedFileExample()
    ensures ParseMsg("test title" + "\n" + ("\n" + ("this is a test msg body" + "\n"
                     + ("\n" + (Sentinel + " master from feat")))))
            == Ok(PullRequestMsg("test title", "this is a test msg body"))
  {
    var last := Sentinel + " master from feat";
    assert IsSentinel(last) by {
      Unprefix(Sentinel, " master from feat");
    }
    assert '\n' !in last by {
      assert '\n' !in Sentinel && '\n' !in " master from feat";
    }
    ExampleLines();
    ParseWithBlankLines("test title", "this is a test msg body", last);
  }

  lemma ExampleLines()
    ensures PlainLine("test title") && PlainLine("this is a test msg body")
    ensures !IsSentinel("this is a test msg body")
  {
    assert "this is a test msg body"[0] != Sentinel[0];
  }
}
