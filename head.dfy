/** The current branch, read from the first line of `.git/HEAD`
    (`branch` and `current_branch`, src/gitpr.rs:84-109). */
module Head {
  import opened RustStr
  import opened PrTypes

  const NoHeadLine := "Could not find git HEAD file"
  const NoBranch := "Could not find current branch from git config"
  const ReadHeadFailed := "Cannot read .git HEAD file; "

  /** What follows the first `/` of `s`, or "" when it has none. */
  function AfterSlash(s: string): string {
    var j := IndexOf(s, '/');
    if j == |s| then "" else s[j + 1..]
  }

  /** What follows the second `/` of `line`, or "" when it has fewer than two. */
  function AfterSecondSlash(line: string): string {
    AfterSlash(AfterSlash(line))
  }

  /** The branch named by one HEAD line: every `/`-segment from the third on,
      joined by `/`. */
  function BranchFromLine(line: string): (r: Result<string>)
    ensures '/' !in line <==> r == Err(Repo(NoBranch))
    ensures '/' in line ==> r == Ok(AfterSecondSlash(line))
  {
    if '/' !in line then Err(Repo(NoBranch))
    else
      var parts := Split(line, '/');
      IndexOfFinds(line, '/');
      SegmentsFromThird(line);
      Ok(Join(parts[2..], "/"))
  }

  /** Rejoining the segments from the third on is the text after the second `/`. */
  lemma SegmentsFromThird(line: string)
    requires IndexOf(line, '/') < |line|
    ensures Join(Split(line, '/')[2..], "/") == AfterSecondSlash(line)
  {
    var rest := AfterSlash(line);
    SplitRest(line, '/');
    assert Split(line, '/')[2..] == Split(line, '/')[1..][1..];
    SegmentsAfterFirst(rest);
  }

  /** Rejoining all segments but the first is the text after the first `/`. */
  lemma SegmentsAfterFirst(s: string)
    ensures Join(Split(s, '/')[1..], "/") == AfterSlash(s)
  {
    var j := IndexOf(s, '/');
    if j < |s| {
      SplitRest(s, '/');
      JoinSplit(s[j + 1..], '/');
    } else {
      assert Split(s, '/') == [s];
    }
  }

  /** `current_branch`: only the first line counts; no line at all is an I/O
      error, a first line without `/` a repository error. */
  function CurrentBranch(contents: string): (r: Result<string>)
    ensures Lines(contents) == [] <==> r == Err(Io(NoHeadLine))
    ensures Lines(contents) != [] ==> r == BranchFromLine(Lines(contents)[0])
    ensures r.Ok? <==> Lines(contents) != [] && '/' in Lines(contents)[0]
  {
    var ls := Lines(contents);
    if ls == [] then Err(Io(NoHeadLine)) else BranchFromLine(ls[0])
  }

  /** `branch`: a failed read becomes an I/O error that keeps its cause. */
  function Branch(read: ReadResult): (r: Result<string>)
    ensures read.ReadFailed? ==> r == Err(Io(ReadHeadFailed + read.cause))
    ensures read.Read? ==> r == CurrentBranch(read.contents)
  {
    match read
    case Read(contents) => CurrentBranch(contents)
    case ReadFailed(cause) => Err(Io(ReadHeadFailed + cause))
  }

  /** Lines after the first never change the answer. */
  lemma OnlyFirstLine(line: string, rest: string)
    requires '\n' !in line
    ensures CurrentBranch(line + "\n" + rest) == BranchFromLine(StripCr(line))
  {
    LinesCons(line, rest);
  }

  /** A first line with a `/` always names a branch: the text after its
      second `/`, of which it is a suffix. */
  lemma BranchIsSuffix(contents: string)
    requires Lines(contents) != [] && '/' in Lines(contents)[0]
    ensures CurrentBranch(contents).Ok?
    ensures EndsWith(Lines(contents)[0], CurrentBranch(contents).value)
  {
    var line := Lines(contents)[0];
    assert CurrentBranch(contents) == Ok(AfterSecondSlash(line));
    AfterSecondSlashSuffix(line);
  }

  lemma AfterSecondSlashSuffix(line: string)
    ensures EndsWith(line, AfterSecondSlash(line))
  {
    AfterSlashSuffix(line);
    AfterSlashSuffix(AfterSlash(line));
    EndsWithTrans(line, AfterSlash(line), AfterSecondSlash(line));
  }

  lemma AfterSlashSuffix(s: string)
    ensures EndsWith(s, AfterSlash(s))
  {
  }

  /** A HEAD line `x/y/p` with no `/` in `x` or `y` names the branch `p`,
      whatever `p` contains. */
  lemma {:induction false} BranchOfRefLine(x: string, y: string, p: string)
    requires '/' !in x && '/' !in y
    requires '\n' !in x && '\n' !in y && '\n' !in p
    ensures CurrentBranch(x + "/" + y + "/" + p) == Ok(p)
  {
    var line := x + "/" + y + "/" + p;
    assert '\n' !in line by {
      assert '\n' !in x + "/" + y + "/";
    }
    LinesSingle(line);
    assert AfterSecondSlash(line) == p by {
      AfterTwoSlashes(x, y, p);
    }
  }

  lemma AfterTwoSlashes(x: string, y: string, p: string)
    requires '/' !in x && '/' !in y
    ensures AfterSecondSlash(x + "/" + y + "/" + p) == p
  {
    var rest := y + "/" + p;
    assert x + "/" + y + "/" + p == x + "/" + rest by {
      Assoc(x + "/", y, "/");
      Assoc(x + "/", y + "/", p);
    }
    IndexOfSplice(x, '/', rest);
    IndexOfSplice(y, '/', p);
  }

  /** The text in front of the branch name in a HEAD file. */
  const RefHeads := "ref: refs/heads/"

  lemma RefHeadsPieces()
    ensures "ref: refs" + "/" + "heads" + "/" == RefHeads
  {
  }

  /** The examples from the unit tests: a branch name with `/` in it is kept whole. */
  lemma NestedBranchExample()
    ensures CurrentBranch(RefHeads + "feat/test-branch") == Ok("feat/test-branch")
  {
    RefHeadsPieces();
    BranchOfRefLine("ref: refs", "heads", "feat/test-branch");
  }

  lemma DoubleSlashBranchExample()
    ensures CurrentBranch(RefHeads + "feat/nested//test-branch") == Ok("feat/nested//test-branch")
  {
    RefHeadsPieces();
    BranchOfRefLine("ref: refs", "heads", "feat/nested//test-branch");
  }

  /** A first line with exactly one `/` names the empty branch. */
  lemma {:induction false} OneSlashEmpty(x: string, y: string)
    requires '/' !in x && '/' !in y && '\n' !in x && '\n' !in y
    ensures CurrentBranch(x + "/" + y) == Ok("")
  {
    var line := x + "/" + y;
    assert '\n' !in line;
    assert forall k :: 0 <= k < |x| ==> line[k] == x[k];
    assert line[|x|] == '/';
    IndexOfAt(line, '/', |x|);
    assert line[|x| + 1..] == y;
    IndexOfFinds(y, '/');
    IndexOfFinds(line, '\n');
  }
}
