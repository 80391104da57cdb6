/** The configuration files of the unit tests of `repo_config`
    (src/gitpr.rs:239-286), and a file with two remote blocks that shows
    that only the first block is looked at. Each file is written as the
    concatenation of its lines. */
module ConfigExamples {
  import opened RustStr
  import opened PrTypes
  import opened Config

  // ---------------------------------------------------------------------
  // The pieces of the configuration files of the unit tests.

  /** The `[core]` section, which both test files start with. */
  const CoreSection := "\n" + ("[core]\n" + ("\tbare = false\n" + ("\trepositoryformatversion = 0\n"
                       + ("\tfilemode = true\n" + "\tlogallrefupdates = true\n"))))

  /** The `origin` block of the first test file. */
  const OriginSection := "[remote \"origin\"]\n" + ("\turl = git@github.com:" + ("jafow/git-pr" + ".git\n"))
                         + ("\tfetch = +refs/heads/*" + ":refs/remotes/origin/*\n")

  /** The `origin` block of the second test file, with a `url` no forge has. */
  const MalformedSection := "[remote \"origin\"]\n" + ("\turl = unrecognizable-url/" + "jafow/git-pr.git\n")
                            + ("\tfetch = +refs/heads/*" + ":refs/remotes/origin/*\n")

  /** The `[branch "master"]` section both test files end with. */
  const MasterSection := "[branch \"master\"]\n" + ("\tremote = origin\n" + "\tmerge = refs/heads/master\n")

  /** An `upstream` block owned by `jafow`, and an `origin` block of a fork
      owned by `alice`. */
  const UpstreamSection := "[remote \"upstream\"]\n" + ("\turl = git@github.com:" + ("jafow/git-pr" + ".git\n"))
  const ForkSection := "[remote \"origin\"]\n" + ("\turl = https://github.com/" + ("alice/git-pr" + ".git\n"))

  // ---------------------------------------------------------------------
  // Quiet stretches: text in which no match can start.

  /** Text that opens with `[` and a character other than `r`, and holds no
      other `[`. */
  lemma QuietOpen(x: string)
    requires |x| >= 2 && x[0] == '[' && x[1] != 'r' && '[' !in x[1..]
    ensures Quiet(x)
  {
    forall i | 0 < i < |x|
      ensures x[i] != '['
    {
      assert x[i] == x[1..][i - 1];
    }
  }

  /** The `[core]` section both test files start with. */
  lemma QuietCore(core: string)
    requires core == "\n" + ("[core]\n" + ("\tbare = false\n" + ("\trepositoryformatversion = 0\n"
                     + ("\tfilemode = true\n" + "\tlogallrefupdates = true\n"))))
    ensures Quiet(core)
  {
    var l3 := "\tbare = false\n" + ("\trepositoryformatversion = 0\n"
              + ("\tfilemode = true\n" + "\tlogallrefupdates = true\n"));
    QuietCoreSettings();
    QuietOpen("[core]\n");
    QuietAppend("[core]\n", l3);
    QuietPlain("\n");
    QuietAppend("\n", "[core]\n" + l3);
  }

  /** The settings lines of the `[core]` section. */
  lemma QuietCoreSettings()
    ensures Quiet("\tbare = false\n" + ("\trepositoryformatversion = 0\n"
                  + ("\tfilemode = true\n" + "\tlogallrefupdates = true\n")))
  {
    var l5 := "\tfilemode = true\n" + "\tlogallrefupdates = true\n";
    var l4 := "\trepositoryformatversion = 0\n" + l5;
    QuietLastSettings();
    QuietPlain("\trepositoryformatversion = 0\n");
    QuietAppend("\trepositoryformatversion = 0\n", l5);
    QuietPlain("\tbare = false\n");
    QuietAppend("\tbare = false\n", l4);
  }

  lemma QuietLastSettings()
    ensures Quiet("\tfilemode = true\n" + "\tlogallrefupdates = true\n")
  {
    QuietPlain("\tfilemode = true\n");
    QuietPlain("\tlogallrefupdates = true\n");
    QuietAppend("\tfilemode = true\n", "\tlogallrefupdates = true\n");
  }

  /** The `[branch "master"]` section both test files end with. */
  lemma QuietBranch(branch: string)
    requires branch == "[branch \"master\"]\n" + ("\tremote = origin\n" + "\tmerge = refs/heads/master\n")
    ensures Quiet(branch)
  {
    var tail := "\tremote = origin\n" + "\tmerge = refs/heads/master\n";
    QuietPlain("\tremote = origin\n");
    QuietPlain("\tmerge = refs/heads/master\n");
    QuietAppend("\tremote = origin\n", "\tmerge = refs/heads/master\n");
    QuietOpen("[branch \"master\"]\n");
    QuietAppend("[branch \"master\"]\n", tail);
  }

  /** The `fetch` line of the remote block. */
  lemma QuietFetch(fetch: string)
    requires fetch == "\tfetch = +refs/heads/*" + ":refs/remotes/origin/*\n"
    ensures Quiet(fetch)
  {
    QuietPlain("\tfetch = +refs/heads/*");
    QuietPlain(":refs/remotes/origin/*\n");
    QuietAppend("\tfetch = +refs/heads/*", ":refs/remotes/origin/*\n");
  }

  // ---------------------------------------------------------------------
  // Remote blocks written out.

  /** The text a match renders, spelled as a header line and a `url` line
      with single spaces around `=`, before `tail`. */
  lemma BlockText(name: string, scheme: string, sep: string, author: string, repo: string, tail: string)
    ensures Render(RemoteMatch(Header(" ", name), Host(' ', ' ', scheme, '.', sep), Path(author, repo)), tail)
            == "[remote \"" + (name + ("\"]\n" + ("\turl = " + (scheme + ("github.com" + (sep + (author + ("/" + (repo + tail)))))))))
  {
    assert "[remote" + (" " + ("\"" + name)) == "[remote \"" + name;
    assert UrlKey + ([' '] + ("=" + [' '])) == "\turl = ";
    assert "github" + (['.'] + "com") == "github.com";
  }

  lemma HeaderLine(name: string, line: string, y: string)
    requires "[remote \"" + (name + "\"]\n") == line
    ensures "[remote \"" + (name + ("\"]\n" + y)) == line + y
  {
    Assoc(name, "\"]\n", y);
    Assoc("[remote \"", name + "\"]\n", y);
  }

  lemma UrlLine(scheme: string, sep: string, line: string, x: string)
    requires "\turl = " + (scheme + ("github.com" + sep)) == line
    ensures "\turl = " + (scheme + ("github.com" + (sep + x))) == line + x
  {
    Assoc("github.com", sep, x);
    Assoc(scheme, "github.com" + sep, x);
    Assoc("\turl = ", scheme + ("github.com" + sep), x);
  }

  lemma PathPiece(author: string, repo: string, piece: string, t: string)
    requires author + ("/" + repo) == piece
    ensures author + ("/" + (repo + t)) == piece + t
  {
    Assoc("/", repo, t);
    Assoc(author, "/" + repo, t);
  }

  lemma Nest4(a: string, b: string, c: string, d: string, rest: string)
    ensures a + (b + (c + (d + rest))) == a + (b + (c + d)) + rest
  {
    Assoc(c, d, rest);
    Assoc(b, c + d, rest);
    Assoc(a, b + (c + d), rest);
  }

  function Origin(): RemoteMatch {
    RemoteMatch(Header(" ", "origin"), Host(' ', ' ', "git@", '.', ":"), Path("jafow", "git-pr"))
  }

  lemma OriginOk()
    ensures MatchOk(Origin())
  {
    assert Run("origin", Word) by {
      assert forall i :: 0 <= i < 6 ==> IsWord("origin"[i]);
    }
    assert Run("jafow", Ident) by {
      assert forall i :: 0 <= i < 5 ==> IsIdent("jafow"[i]);
    }
    assert Run("git-pr", Ident) by {
      assert forall i :: 0 <= i < 6 ==> IsIdent("git-pr"[i]);
    }
    assert Run(" ", Space);
  }

  // ---------------------------------------------------------------------
  // The first test file: found.

  /** The remote block of the first test file, up to and including `.git`
      and its line feed, is a match for `origin` owned by `jafow` and named
      `git-pr`. */
  lemma OriginBlock(block: string, rest: string)
    requires block == "[remote \"origin\"]\n" + ("\turl = git@github.com:" + ("jafow/git-pr" + ".git\n"))
    ensures Render(Origin(), ".git\n" + rest) == block + rest
  {
    var t := ".git\n" + rest;
    BlockText("origin", "git@", ":", "jafow", "git-pr", t);
    PathPiece("jafow", "git-pr", "jafow/git-pr", t);
    UrlLine("git@", ":", "\turl = git@github.com:", "jafow/git-pr" + t);
    HeaderLine("origin", "[remote \"origin\"]\n", "\turl = git@github.com:" + ("jafow/git-pr" + t));
    Nest4("[remote \"origin\"]\n", "\turl = git@github.com:", "jafow/git-pr", ".git\n", rest);
  }

  /** The first test file's remote block, and what follows it, starts with
      the `origin` match. */
  lemma OriginFound(remote: string, branch: string)
    requires remote == "[remote \"origin\"]\n" + ("\turl = git@github.com:" + ("jafow/git-pr" + ".git\n"))
                       + ("\tfetch = +refs/heads/*" + ":refs/remotes/origin/*\n")
    ensures Search(remote + branch, None) == Some((0, Origin()))
  {
    var fetch := "\tfetch = +refs/heads/*" + ":refs/remotes/origin/*\n";
    var block := "[remote \"origin\"]\n" + ("\turl = git@github.com:" + ("jafow/git-pr" + ".git\n"));
    var tail := ".git\n" + (fetch + branch);
    OriginBlock(block, fetch + branch);
    Assoc(block, fetch, branch);
    assert remote + branch == Render(Origin(), tail);
    OriginOk();
    FoundAtStart(Origin(), tail, None);
  }

  /** The first match in the first test file is the `origin` block, right
      after the `[core]` section. */
  lemma OriginFirst(core: string, rest: string)
    requires Quiet(core)
    requires Search(rest, None) == Some((0, Origin()))
    ensures FirstMatch(core + rest) == Some((|core|, Origin()))
  {
    SkipQuiet(core, rest, None);
  }

  // ---------------------------------------------------------------------
  // The second test file: a `url` the pattern does not recognise.

  /** A `url` value that starts with neither `http` nor `git@` is no host. */
  lemma NoSchemeNoHost(x: string)
    requires x != [] && x[0] != 'h' && x[0] != 'g'
    ensures ParseHost("\turl = " + x) == None
  {
    var s := "\turl = " + x;
    Unprefix(UrlKey, " = " + x);
    assert s[|UrlKey|..] == " = " + x;
    assert (" = " + x)[3..] == x;
    assert !StartsWith(x, "http://") && !StartsWith(x, "https://") && !StartsWith(x, "git@") by {
      assert |x| >= 4 ==> x[..4][0] == x[0];
      assert |x| >= 7 ==> x[..7][0] == x[0];
      assert |x| >= 8 ==> x[..8][0] == x[0];
    }
  }

  /** The header of the second file's remote block is fine but its `url`
      line is not, so no match starts at its `[`. */
  lemma MalformedBlock(after: string)
    ensures MatchAt("[remote \"origin\"]\n" + ("\turl = unrecognizable-url/" + after)) == None
  {
    var x := "unrecognizable-url/" + after;
    var rest := "\turl = " + x;
    assert "\turl = unrecognizable-url/" + after == rest by {
      Assoc("\turl = ", "unrecognizable-url/", after);
    }
    OriginHeader(rest);
    assert x[0] == 'u';
    NoSchemeNoHost(x);
  }

  /** The header line of an `origin` block is read as such. */
  lemma OriginHeader(rest: string)
    ensures ParseHeader("[remote \"origin\"]\n" + rest) == Some((Header(" ", "origin"), rest))
  {
    var h := Header(" ", "origin");
    assert RenderHeader(h, rest) == "[remote \"origin\"]\n" + rest by {
      HeaderLine("origin", "[remote \"origin\"]\n", rest);
      assert RemoteOpen + (" " + ("\"" + "origin")) == "[remote \"origin";
      Nest4(RemoteOpen, " ", "\"", "origin", NameClose + rest);
      Assoc(RemoteOpen + (" " + ("\"" + "origin")), NameClose, rest);
    }
    assert HeaderOk(h) by {
      assert Run("origin", Word) by {
        assert forall i :: 0 <= i < 6 ==> IsWord("origin"[i]);
      }
      assert Run(" ", Space);
    }
    ParseHeaderComplete(h, rest);
  }

  /** What follows the `[` of the second file's remote block is quiet. */
  lemma QuietAfterOpen(fetch: string, branch: string)
    requires fetch == "\tfetch = +refs/heads/*" + ":refs/remotes/origin/*\n"
    requires branch == "[branch \"master\"]\n" + ("\tremote = origin\n" + "\tmerge = refs/heads/master\n")
    ensures Quiet("remote \"origin\"]\n" + ("\turl = unrecognizable-url/" + ("jafow/git-pr.git\n" + (fetch + branch))))
  {
    QuietFetch(fetch);
    QuietBranch(branch);
    QuietAppend(fetch, branch);
    QuietPlain("jafow/git-pr.git\n");
    QuietAppend("jafow/git-pr.git\n", fetch + branch);
    QuietPlain("\turl = unrecognizable-url/");
    QuietAppend("\turl = unrecognizable-url/", "jafow/git-pr.git\n" + (fetch + branch));
    QuietPlain("remote \"origin\"]\n");
    QuietAppend("remote \"origin\"]\n", "\turl = unrecognizable-url/" + ("jafow/git-pr.git\n" + (fetch + branch)));
  }

  /** In the second test file the pattern matches nowhere. */
  lemma MalformedNowhere(text: string, core: string, remote: string, branch: string, want: Option<string>)
    requires core == "\n" + ("[core]\n" + ("\tbare = false\n" + ("\trepositoryformatversion = 0\n"
                     + ("\tfilemode = true\n" + "\tlogallrefupdates = true\n"))))
    requires remote == "[remote \"origin\"]\n" + ("\turl = unrecognizable-url/" + "jafow/git-pr.git\n")
                       + ("\tfetch = +refs/heads/*" + ":refs/remotes/origin/*\n")
    requires branch == "[branch \"master\"]\n" + ("\tremote = origin\n" + "\tmerge = refs/heads/master\n")
    requires text == core + remote + branch
    ensures Search(text, want) == None
  {
    var header := "[remote \"origin\"]\n";
    var url := "\turl = unrecognizable-url/";
    var path := "jafow/git-pr.git\n";
    var fetch := "\tfetch = +refs/heads/*" + ":refs/remotes/origin/*\n";
    var after := path + (fetch + branch);
    var block := header + (url + after);
    assert remote + branch == block by {
      Assoc(header + (url + path), fetch, branch);
      Assoc(header, url + path, fetch + branch);
      Assoc(url, path, fetch + branch);
    }
    MalformedBlock(after);
    SkipHead(block, want);
    DropFirst(header, url + after);
    assert header[1..] == "remote \"origin\"]\n";
    QuietAfterOpen(fetch, branch);
    QuietNothing(block[1..], want);
    QuietCore(core);
    SkipQuiet(core, block, want);
    Assoc(core, remote, branch);
  }

  // ---------------------------------------------------------------------
  // Two remote blocks: the first one decides.

  function Upstream(): RemoteMatch {
    RemoteMatch(Header(" ", "upstream"), Host(' ', ' ', "git@", '.', ":"), Path("jafow", "git-pr"))
  }

  function Fork(): RemoteMatch {
    RemoteMatch(Header(" ", "origin"), Host(' ', ' ', "https://", '.', "/"), Path("alice", "git-pr"))
  }

  lemma TwoBlocksOk()
    ensures MatchOk(Upstream()) && MatchOk(Fork())
  {
    assert Run("upstream", Word) by {
      assert forall i :: 0 <= i < 8 ==> IsWord("upstream"[i]);
    }
    assert Run("alice", Ident) by {
      assert forall i :: 0 <= i < 5 ==> IsIdent("alice"[i]);
    }
    OriginOk();
  }

  lemma UpstreamBlock(block: string, rest: string)
    requires block == "[remote \"upstream\"]\n" + ("\turl = git@github.com:" + ("jafow/git-pr" + ".git\n"))
    ensures Render(Upstream(), ".git\n" + rest) == block + rest
  {
    var t := ".git\n" + rest;
    BlockText("upstream", "git@", ":", "jafow", "git-pr", t);
    PathPiece("jafow", "git-pr", "jafow/git-pr", t);
    UrlLine("git@", ":", "\turl = git@github.com:", "jafow/git-pr" + t);
    HeaderLine("upstream", "[remote \"upstream\"]\n", "\turl = git@github.com:" + ("jafow/git-pr" + t));
    Nest4("[remote \"upstream\"]\n", "\turl = git@github.com:", "jafow/git-pr", ".git\n", rest);
  }

  lemma ForkBlock(block: string, rest: string)
    requires block == "[remote \"origin\"]\n" + ("\turl = https://github.com/" + ("alice/git-pr" + ".git\n"))
    ensures Render(Fork(), ".git\n" + rest) == block + rest
  {
    var t := ".git\n" + rest;
    BlockText("origin", "https://", "/", "alice", "git-pr", t);
    PathPiece("alice", "git-pr", "alice/git-pr", t);
    UrlLine("https://", "/", "\turl = https://github.com/", "alice/git-pr" + t);
    HeaderLine("origin", "[remote \"origin\"]\n", "\turl = https://github.com/" + ("alice/git-pr" + t));
    Nest4("[remote \"origin\"]\n", "\turl = https://github.com/", "alice/git-pr", ".git\n", rest);
  }

  /** After the `[` of the `upstream` block nothing can start a match
      before the `origin` block. */
  lemma QuietUpstreamTail(up: string)
    requires up == "[remote \"upstream\"]\n" + ("\turl = git@github.com:" + ("jafow/git-pr" + ".git\n"))
    ensures Quiet(up[1..])
  {
    assert up[1..] == "remote \"upstream\"]\n" + ("\turl = git@github.com:" + ("jafow/git-pr" + ".git\n"));
    QuietPlain("jafow/git-pr");
    QuietPlain(".git\n");
    QuietAppend("jafow/git-pr", ".git\n");
    QuietPlain("\turl = git@github.com:");
    QuietAppend("\turl = git@github.com:", "jafow/git-pr" + ".git\n");
    QuietPlain("remote \"upstream\"]\n");
    QuietAppend("remote \"upstream\"]\n", "\turl = git@github.com:" + ("jafow/git-pr" + ".git\n"));
  }

  /** The `origin` block at the start of the text is what the corrected
      reading finds. */
  lemma ForkFound(fork: string)
    requires fork == "[remote \"origin\"]\n" + ("\turl = https://github.com/" + ("alice/git-pr" + ".git\n"))
    ensures Search(fork, Some("origin")) == Some((0, Fork()))
  {
    TwoBlocksOk();
    ForkBlock(fork, "");
    assert ".git\n" + "" == ".git\n";
    assert fork + "" == fork;
    assert Render(Fork(), ".git\n") == fork;
    FoundAtStart(Fork(), ".git\n", Some("origin"));
  }

  /** The `upstream` block is what matches at the very start. */
  lemma UpstreamHead(up: string, fork: string)
    requires up == "[remote \"upstream\"]\n" + ("\turl = git@github.com:" + ("jafow/git-pr" + ".git\n"))
    ensures MatchAt(up + fork) == Some((Upstream(), ".git\n" + fork))
  {
    TwoBlocksOk();
    UpstreamBlock(up, fork);
    MatchAtComplete(Upstream(), ".git\n" + fork);
  }

  /** The `upstream` match at the start is passed over by the corrected
      reading, and so is the rest of the `upstream` block. */
  lemma UpstreamSkipped(up: string, fork: string)
    requires up == "[remote \"upstream\"]\n" + ("\turl = git@github.com:" + ("jafow/git-pr" + ".git\n"))
    ensures Search(up + fork, Some("origin")) == Shift(Search(fork, Some("origin")), |up|)
  {
    UpstreamHead(up, fork);
    QuietUpstreamTail(up);
    SkipRejected(up, fork, Some("origin"));
  }

  // ---------------------------------------------------------------------
  // The examples, on the texts themselves.

  /** The first unit test: the `origin` block's owner and name are found. */
  lemma GitPrConfigExample()
    ensures RepoConfig(CoreSection + OriginSection + MasterSection, "origin") == Ok(RepoData("jafow", "git-pr"))
  {
    assert FirstMatch(CoreSection + OriginSection + MasterSection) == Some((|CoreSection|, Origin())) by {
      OriginFound(OriginSection, MasterSection);
      QuietCore(CoreSection);
      Assoc(CoreSection, OriginSection, MasterSection);
      OriginFirst(CoreSection, OriginSection + MasterSection);
    }
  }

  /** The second unit test: asking for a remote with no block, and asking
      for `origin` whose `url` is malformed, both give the configuration
      error. */
  lemma MalformedUrlExample()
    ensures RepoConfig(CoreSection + MalformedSection + MasterSection, "upstream") == Err(Repo(NoConfig))
    ensures RepoConfig(CoreSection + MalformedSection + MasterSection, "origin") == Err(Repo(NoConfig))
  {
    MalformedNowhere(CoreSection + MalformedSection + MasterSection, CoreSection, MalformedSection, MasterSection, None);
  }

  /** An `upstream` block in front of an `origin` block: `repo_config` asked
      for `origin` fails, while the corrected reading finds the `origin`
      block's owner. */
  lemma UpstreamFirstExample()
    ensures RepoConfig(UpstreamSection + ForkSection, "origin") == Err(Repo(NoConfig))
    ensures RepoConfigNamed(UpstreamSection + ForkSection, "origin") == Ok(RepoData("alice", "git-pr"))
  {
    TwoBlocksOk();
    UpstreamBlock(UpstreamSection, ForkSection);
    FirstBlockDecides(Upstream(), ".git\n" + ForkSection, "origin");
    ForkFound(ForkSection);
    UpstreamSkipped(UpstreamSection, ForkSection);
  }
}
