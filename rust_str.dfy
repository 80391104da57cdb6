/** Models of the few Rust `str` operations that the pull-request code relies on:
    `lines`, `split` on a character, `join`, `starts_with`, `contains` and
    collecting an iterator of `&str` into one `String`. Strings are `seq<char>`. */
module RustStr {

  /** `s.starts_with(p)` */
  predicate StartsWith(s: string, p: string) {
    |p| <= |s| && s[..|p|] == p
  }

  /** `s.ends_with(p)` */
  predicate EndsWith(s: string, p: string) {
    |p| <= |s| && s[|s| - |p|..] == p
  }

  /** A suffix of a suffix is a suffix. */
  lemma EndsWithTrans(a: string, b: string, c: string)
    requires EndsWith(a, b) && EndsWith(b, c)
    ensures EndsWith(a, c)
  {
    assert a[|a| - |c|..] == a[|a| - |b|..][|b| - |c|..];
  }

  /** Text starts with what was put in front of it, and what follows is the rest. */
  lemma Unprefix(p: string, x: string)
    ensures StartsWith(p + x, p) && (p + x)[|p|..] == x
  {
    assert (p + x)[..|p|] == p;
  }

  /** Index of the first occurrence of `c` in `s`, or `|s|` when there is none. */
  function IndexOf(s: string, c: char): (i: nat)
    ensures i <= |s|
    ensures i < |s| ==> s[i] == c
  {
    IndexFrom(s, c, 0)
  }

  /** The search of `IndexOf`, from position `k` on. */
  function IndexFrom(s: string, c: char, k: nat): (i: nat)
    requires k <= |s|
    ensures k <= i <= |s|
    ensures i < |s| ==> s[i] == c
    decreases |s| - k
  {
    if k == |s| then k
    else if s[k] == c then k
    else IndexFrom(s, c, k + 1)
  }

  /** No `c` stands before the index the search returns. */
  lemma IndexOfFirst(s: string, c: char)
    ensures forall j :: 0 <= j < IndexOf(s, c) ==> s[j] != c
  {
    IndexFromFirst(s, c, 0);
  }

  lemma {:induction false} IndexFromFirst(s: string, c: char, k: nat)
    requires k <= |s|
    ensures forall j :: k <= j < IndexFrom(s, c, k) ==> s[j] != c
    decreases |s| - k
  {
    if k < |s| && s[k] != c {
      IndexFromFirst(s, c, k + 1);
    }
  }

  /** The search finds `c` exactly when `c` occurs in `s`. */
  lemma IndexOfFinds(s: string, c: char)
    ensures IndexOf(s, c) < |s| <==> c in s
  {
    IndexOfFirst(s, c);
  }

  /** The search stops at the first `c`. */
  lemma IndexOfAt(s: string, c: char, i: nat)
    requires i < |s| && s[i] == c
    requires forall j :: 0 <= j < i ==> s[j] != c
    ensures IndexOf(s, c) == i
  {
    IndexOfFirst(s, c);
  }

  /** In `x + [c] + r` with no `c` in `x`, the search stops right after `x`
      and what follows the `c` is `r`. */
  lemma IndexOfSplice(x: string, c: char, r: string)
    requires c !in x
    ensures IndexOf(x + [c] + r, c) == |x|
    ensures (x + [c] + r)[|x| + 1..] == r
  {
    var s := x + [c] + r;
    forall j | 0 <= j < |x|
      ensures s[j] != c
    {
      assert s[j] == x[j];
    }
    IndexOfAt(s, c, |x|);
  }

  /** Removes one trailing carriage return, as `lines` does before a line feed. */
  function StripCr(l: string): string {
    if |l| > 0 && l[|l| - 1] == '\r' then l[..|l| - 1] else l
  }

  /** `s.lines()`: the pieces between line feeds, each losing a `\r` that
      stands right before its `\n`; a final line feed adds no empty line
      and the empty text has no lines. A last line without a line feed keeps
      a trailing `\r`. */
  function Lines(s: string): (ls: seq<string>)
    ensures |ls| == 0 <==> s == []
    ensures forall k :: 0 <= k < |ls| ==> '\n' !in ls[k]
    decreases |s|
  {
    if s == [] then []
    else
      var i := IndexOf(s, '\n');
      IndexOfFirst(s, '\n');
      IndexOfFinds(s, '\n');
      assert '\n' !in s[..i];
      assert '\n' !in StripCr(s[..i]);
      if i == |s| then [s]
      else [StripCr(s[..i])] + Lines(s[i + 1..])
  }

  /** Text made of every line followed by a line feed (the inverse of `Lines`). */
  function Terminated(ls: seq<string>): string {
    if ls == [] then "" else ls[0] + "\n" + Terminated(ls[1..])
  }

  /** A line that `Lines` can give back unchanged once it is followed by a line feed. */
  predicate PlainLine(l: string) {
    '\n' !in l && !(|l| > 0 && l[|l| - 1] == '\r')
  }

  lemma LinesCons(l: string, rest: string)
    requires '\n' !in l
    ensures Lines(l + "\n" + rest) == [StripCr(l)] + Lines(rest)
  {
    var s := l + "\n" + rest;
    assert s[|l|] == '\n';
    assert forall j :: 0 <= j < |l| ==> s[j] == l[j];
    IndexOfAt(s, '\n', |l|);
    assert s[..|l|] == l;
    assert s[|l| + 1..] == rest;
  }

  /** A plain line followed by a line feed comes back unchanged. */
  lemma LinesConsPlain(l: string, rest: string)
    requires PlainLine(l)
    ensures Lines(l + "\n" + rest) == [l] + Lines(rest)
  {
    LinesCons(l, rest);
  }

  /** A leading line feed is one empty line. */
  lemma LinesBlank(rest: string)
    ensures Lines("\n" + rest) == [""] + Lines(rest)
  {
    LinesCons("", rest);
    assert "" + "\n" + rest == "\n" + rest;
  }

  /** Text without a line feed is one line. */
  lemma LinesSingle(l: string)
    requires l != [] && '\n' !in l
    ensures Lines(l) == [l]
  {
    IndexOfFinds(l, '\n');
  }

  /** Three lines, each followed by a line feed. */
  lemma TerminatedTwo(a: string, b: string)
    ensures Terminated([a, b]) == a + "\n" + (b + "\n")
  {
    assert [a, b][1..] == [b];
    assert [b][1..] == [];
    assert Terminated([b]) == b + "\n" + "";
  }

  lemma TerminatedThree(a: string, b: string, c: string)
    ensures Terminated([a, b, c]) == a + "\n" + (b + "\n" + (c + "\n"))
  {
    assert [a, b, c][1..] == [b, c];
    assert [b, c][1..] == [c];
    assert [c][1..] == [];
    assert Terminated([c]) == c + "\n" + "";
  }

  /** Terminated lines in front of any text come back first. */
  lemma {:induction false} LinesAfterTerminated(ls: seq<string>, rest: string)
    requires forall k :: 0 <= k < |ls| ==> PlainLine(ls[k])
    ensures Lines(Terminated(ls) + rest) == ls + Lines(rest)
  {
    if ls == [] {
      assert Terminated(ls) + rest == rest;
    } else {
      var x := Terminated(ls[1..]) + rest;
      var tail := Lines(rest);
      assert Lines(x) == ls[1..] + tail by {
        LinesAfterTerminated(ls[1..], rest);
      }
      assert Terminated(ls) + rest == ls[0] + "\n" + x;
      assert Lines(ls[0] + "\n" + x) == [ls[0]] + Lines(x) by {
        LinesConsPlain(ls[0], x);
      }
      ConsTail(ls, tail);
    }
  }

  lemma ConsTail<T>(ls: seq<T>, tail: seq<T>)
    requires ls != []
    ensures [ls[0]] + (ls[1..] + tail) == ls + tail
  {
  }

  /** Splitting text made of terminated lines gives those lines back. */
  lemma {:induction false} LinesOfTerminated(ls: seq<string>)
    requires forall k :: 0 <= k < |ls| ==> PlainLine(ls[k])
    ensures Lines(Terminated(ls)) == ls
  {
    if ls != [] {
      LinesOfTerminated(ls[1..]);
      LinesCons(ls[0], Terminated(ls[1..]));
    }
  }

  /** When the text begins with a non-empty `p` (no line feed in `p`, and no
      `\r` ending it), the first line begins with `p` too. */
  lemma FirstLineStartsWith(p: string, x: string)
    requires p != [] && PlainLine(p)
    ensures |Lines(p + x)| > 0 && StartsWith(Lines(p + x)[0], p)
  {
    var s := p + x;
    assert forall j :: 0 <= j < |p| ==> s[j] == p[j];
    var i := IndexOf(s, '\n');
    IndexOfFirst(s, '\n');
    assert i >= |p|;
    if i < |s| {
      assert s[..i][..|p|] == p;
      if i == |p| {
        assert s[..i] == p;
      } else {
        assert StripCr(s[..i])[..|p|] == p;
      }
    } else {
      assert Lines(s) == [s];
      assert s[..|p|] == p;
    }
  }

  /** `s.split(c)`: the pieces between occurrences of `c`; always at least one. */
  function Split(s: string, c: char): (parts: seq<string>)
    ensures |parts| >= 1
    ensures c in s ==> |parts| >= 2
    decreases |s|
  {
    var i := IndexOf(s, c);
    IndexOfFinds(s, c);
    if i == |s| then [s]
    else [s[..i]] + Split(s[i + 1..], c)
  }

  /** A split of text holding `c` is its first piece and the split of the rest. */
  lemma SplitFirst(s: string, c: char)
    requires IndexOf(s, c) < |s|
    ensures Split(s, c) == [s[..IndexOf(s, c)]] + Split(s[IndexOf(s, c) + 1..], c)
  {
  }

  /** The pieces after the first are the split of what follows the first `c`. */
  lemma SplitRest(s: string, c: char)
    requires IndexOf(s, c) < |s|
    ensures Split(s, c)[1..] == Split(s[IndexOf(s, c) + 1..], c)
  {
    SplitFirst(s, c);
    DropAfterCons(s[..IndexOf(s, c)], Split(s[IndexOf(s, c) + 1..], c), 1);
  }

  /** No piece of a split contains the separator. */
  lemma {:induction false} SplitPieces(s: string, c: char)
    ensures forall k :: 0 <= k < |Split(s, c)| ==> c !in Split(s, c)[k]
    decreases |s|
  {
    var i := IndexOf(s, c);
    IndexOfFinds(s, c);
    IndexOfFirst(s, c);
    if i < |s| {
      SplitPieces(s[i + 1..], c);
      assert c !in s[..i];
    }
  }

  /** `parts.join(sep)` */
  function Join(parts: seq<string>, sep: string): (r: string)
    ensures |parts| > 0 ==> StartsWith(r, parts[0]) && EndsWith(r, parts[|parts| - 1])
  {
    if |parts| == 0 then ""
    else if |parts| == 1 then parts[0]
    else
      var rest := Join(parts[1..], sep);
      assert EndsWith(rest, parts[|parts| - 1]);
      Unprefix(parts[0], sep + rest);
      Assoc(parts[0], sep, rest);
      EndsAfter(parts[0] + sep, rest, parts[|parts| - 1]);
      parts[0] + sep + rest
  }

  /** What ends a text still ends it with more put in front. */
  lemma EndsAfter(p: string, s: string, e: string)
    requires EndsWith(s, e)
    ensures EndsWith(p + s, e)
  {
    assert (p + s)[|p + s| - |e|..] == s[|s| - |e|..];
  }

  lemma JoinCons(a: string, tail: seq<string>, sep: string)
    requires |tail| >= 1
    ensures Join([a] + tail, sep) == a + sep + Join(tail, sep)
  {
    assert ([a] + tail)[1..] == tail;
  }

  lemma DropAfterCons<T>(a: T, t: seq<T>, k: nat)
    requires 1 <= k <= |t| + 1
    ensures ([a] + t)[k..] == t[k - 1..]
  {
  }

  lemma Assoc<T>(a: seq<T>, b: seq<T>, c: seq<T>)
    ensures a + b + c == a + (b + c)
  {
  }

  lemma Around<T>(s: seq<T>, i: nat)
    requires i < |s|
    ensures s == s[..i] + [s[i]] + s[i + 1..]
  {
  }

  /** Joining the pieces of a split with the separator restores the text. */
  lemma {:induction false} JoinSplit(s: string, c: char)
    ensures Join(Split(s, c), [c]) == s
    decreases |s|
  {
    var i := IndexOf(s, c);
    if i < |s| {
      var rest := s[i + 1..];
      JoinSplit(rest, c);
      SplitFirst(s, c);
      JoinCons(s[..i], Split(rest, c), [c]);
      Around(s, i);
    }
  }

  /** `iter.collect::<String>()` over `&str` items: concatenation, no separator. */
  function Concat(ls: seq<string>): (r: string)
    ensures ls != [] ==> StartsWith(r, ls[0])
    ensures |r| == TotalLength(ls)
  {
    if ls == [] then "" else
      var rest := Concat(ls[1..]);
      Unprefix(ls[0], rest);
      ls[0] + rest
  }

  /** A character found in none of the pieces is not in their concatenation:
      `collect` adds nothing between them. */
  lemma {:induction false} ConcatExcludes(ls: seq<string>, c: char)
    requires forall k :: 0 <= k < |ls| ==> c !in ls[k]
    ensures c !in Concat(ls)
  {
    if ls != [] {
      ConcatExcludes(ls[1..], c);
    }
  }

  /** The length of the concatenation is the sum of the pieces' lengths. */
  function TotalLength(ls: seq<string>): nat {
    if ls == [] then 0 else |ls[0]| + TotalLength(ls[1..])
  }

  lemma ConcatOne(a: string)
    ensures Concat([a]) == a
  {
    assert [a][1..] == [];
    assert a + "" == a;
  }

  lemma ConcatPair(a: string, b: string)
    ensures Concat([a, b]) == a + b
  {
    assert [a, b][1..] == [b];
    assert [b][1..] == [];
    assert Concat([b]) == b + Concat([]);
  }

  lemma ConcatThree(a: string, b: string, c: string)
    ensures Concat([a, b, c]) == a + (b + c)
  {
    assert [a, b, c][1..] == [b, c];
    ConcatPair(b, c);
  }

  lemma {:induction false} ConcatAppend(a: seq<string>, b: seq<string>)
    ensures Concat(a + b) == Concat(a) + Concat(b)
  {
    if a != [] {
      assert (a + b)[1..] == a[1..] + b;
      ConcatAppend(a[1..], b);
    } else {
      assert a + b == b;
    }
  }
}
