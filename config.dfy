/** The repository owner and name, read from the text of `.git/config`
    (`repo_config`, src/gitpr.rs:206-237). The regular expression that
    function compiles is written out here as a recognizer: one parser per
    stretch of the pattern, each proved to accept exactly the texts that the
    matching declarative rendering describes. */
module Config {
  import opened RustStr
  import opened PrTypes

  const NoConfig := "failed to read repo config"

  /** The character classes of the pattern: `\s`, `\w` and `[A-Za-z0-9_-]`. */
  datatype Class = Space | Word | Ident

  /** `\s`: the Unicode White_Space property. */
  predicate IsSpace(c: char) {
    ('\t' <= c <= '\r') || c == ' ' || c == '\U{0085}' || c == '\U{00A0}' || c == '\U{1680}'
    || ('\U{2000}' <= c <= '\U{200A}') || c == '\U{2028}' || c == '\U{2029}'
    || c == '\U{202F}' || c == '\U{205F}' || c == '\U{3000}'
  }

  /** `\w`, restricted to ASCII. */
  predicate IsWord(c: char) {
    ('a' <= c <= 'z') || ('A' <= c <= 'Z') || ('0' <= c <= '9') || c == '_'
  }

  /** `[A-Za-z0-9_-]`, the characters of an owner or a repository name. */
  predicate IsIdent(c: char) {
    IsWord(c) || c == '-'
  }

  predicate InClass(c: char, k: Class) {
    match k
    case Space => IsSpace(c)
    case Word => IsWord(c)
    case Ident => IsIdent(c)
  }

  predicate AllIn(s: string, k: Class) {
    forall i :: 0 <= i < |s| ==> InClass(s[i], k)
  }

  /** What `k+` matches. */
  predicate Run(s: string, k: Class) {
    s != [] && AllIn(s, k)
  }

  /** `rest` cannot extend a run of `k`. */
  predicate StopsRun(rest: string, k: Class) {
    rest == [] || !InClass(rest[0], k)
  }

  /** The length of the longest run of `k` at the start of `s`. */
  function Span(s: string, k: Class): (n: nat)
    ensures n <= |s|
  {
    if s != [] && InClass(s[0], k) then 1 + Span(s[1..], k) else 0
  }

  /** The run `Span` measures is a run of `k`, and it cannot go on. */
  lemma {:induction false} SpanFacts(s: string, k: Class)
    ensures AllIn(s[..Span(s, k)], k) && StopsRun(s[Span(s, k)..], k)
  {
    if s != [] && InClass(s[0], k) {
      SpanFacts(s[1..], k);
      assert s[..Span(s, k)] == [s[0]] + s[1..][..Span(s[1..], k)];
      assert s[Span(s, k)..] == s[1..][Span(s[1..], k)..];
    }
  }

  /** A run of `k` that cannot go on is exactly what `Span` measures. */
  lemma {:induction false} SpanOf(x: string, rest: string, k: Class)
    requires AllIn(x, k) && StopsRun(rest, k)
    ensures Span(x + rest, k) == |x|
  {
    if x != [] {
      assert (x + rest)[0] == x[0];
      assert (x + rest)[1..] == x[1..] + rest;
      SpanOf(x[1..], rest, k);
    } else {
      assert x + rest == rest;
    }
  }

  lemma Unsplit(s: string, n: nat)
    requires n <= |s|
    ensures s == s[..n] + s[n..]
  {
  }

  // ---------------------------------------------------------------------
  // `\[remote\s+"(?P<origin>\w+)"\]\n`

  const RemoteOpen := "[remote"
  const NameClose := "\"]\n"

  /** The white space after `[remote` and the remote's name. */
  datatype Header = Header(ws: string, name: string)

  predicate HeaderOk(h: Header) {
    Run(h.ws, Space) && Run(h.name, Word)
  }

  function RenderHeader(h: Header, rest: string): string {
    RemoteOpen + (h.ws + ("\"" + (h.name + (NameClose + rest))))
  }

  function ParseHeader(s: string): Option<(Header, string)> {
    if !StartsWith(s, RemoteOpen) then None
    else
      var s1 := s[|RemoteOpen|..];
      var w := Span(s1, Space);
      if w == 0 || w == |s1| || s1[w] != '"' then None
      else
        var s2 := s1[w + 1..];
        var n := Span(s2, Word);
        if n == 0 || !StartsWith(s2[n..], NameClose) then None
        else Some((Header(s1[..w], s2[..n]), s2[n..][|NameClose|..]))
  }

  lemma ParseHeaderSound(s: string)
    requires ParseHeader(s).Some?
    ensures HeaderOk(ParseHeader(s).value.0)
    ensures s == RenderHeader(ParseHeader(s).value.0, ParseHeader(s).value.1)
  {
    var s1 := s[|RemoteOpen|..];
    var w := Span(s1, Space);
    var s2 := s1[w + 1..];
    var n := Span(s2, Word);
    var s3 := s2[n..];
    var rest := s3[|NameClose|..];
    assert ParseHeader(s) == Some((Header(s1[..w], s2[..n]), rest));
    assert HeaderOk(Header(s1[..w], s2[..n])) by {
      SpanFacts(s1, Space);
      SpanFacts(s2, Word);
    }
    assert s3 == NameClose + rest by {
      Unsplit(s3, |NameClose|);
    }
    assert s2 == s2[..n] + (NameClose + rest) by {
      Unsplit(s2, n);
    }
    assert s1 == s1[..w] + ("\"" + s2) by {
      Unsplit(s1, w);
      assert s1[w..] == "\"" + s2;
    }
    assert s == RemoteOpen + s1 by {
      Unsplit(s, |RemoteOpen|);
    }
  }

  lemma ParseHeaderComplete(h: Header, rest: string)
    requires HeaderOk(h)
    ensures ParseHeader(RenderHeader(h, rest)) == Some((h, rest))
  {
    var s3 := NameClose + rest;
    var s2 := h.name + s3;
    var s1 := h.ws + ("\"" + s2);
    var s := RemoteOpen + s1;
    Unprefix(RemoteOpen, s1);
    SpanOf(h.ws, "\"" + s2, Space);
    Unprefix(h.ws, "\"" + s2);
    assert s1[|h.ws|] == '"';
    assert s1[|h.ws| + 1..] == s2;
    SpanOf(h.name, s3, Word);
    Unprefix(h.name, s3);
    Unprefix(NameClose, rest);
  }

  /** The header parser accepts exactly the rendered headers. */
  lemma ParseHeaderIff(s: string, h: Header, rest: string)
    ensures ParseHeader(s) == Some((h, rest)) <==> HeaderOk(h) && s == RenderHeader(h, rest)
  {
    if ParseHeader(s) == Some((h, rest)) {
      ParseHeaderSound(s);
    }
    if HeaderOk(h) && s == RenderHeader(h, rest) {
      ParseHeaderComplete(h, rest);
    }
  }

  // ---------------------------------------------------------------------
  // `\turl\s=\s(https?://|git@)github.com[:/]?`

  const UrlKey := "\turl"

  /** The two white-space characters around `=`, the scheme, the character
      the unescaped `.` matched, and the optional `:` or `/`. */
  datatype Host = Host(eq1: char, eq2: char, scheme: string, dot: char, sep: string)

  predicate IsScheme(p: string) {
    p == "http://" || p == "https://" || p == "git@"
  }

  predicate HostOk(h: Host) {
    IsSpace(h.eq1) && IsSpace(h.eq2) && IsScheme(h.scheme) && h.dot != '\n'
    && (h.sep == "" || h.sep == ":" || h.sep == "/")
  }

  /** `rest` starts with a character that `[:/]?` would take. */
  predicate SepStart(rest: string) {
    rest != [] && (rest[0] == ':' || rest[0] == '/')
  }

  function RenderHost(h: Host, rest: string): string {
    UrlKey + ([h.eq1] + ("=" + ([h.eq2] + RenderSite(h, rest))))
  }

  /** From the scheme on. */
  function RenderSite(h: Host, rest: string): string {
    h.scheme + RenderDomain(h, rest)
  }

  /** From `github` on. */
  function RenderDomain(h: Host, rest: string): string {
    "github" + ([h.dot] + ("com" + (h.sep + rest)))
  }

  /** The alternative of `(https?://|git@)` that `s` starts with, or "". */
  function SchemeOf(s: string): (p: string)
    ensures p == "" || (IsScheme(p) && StartsWith(s, p))
  {
    if StartsWith(s, "http://") then "http://"
    else if StartsWith(s, "https://") then "https://"
    else if StartsWith(s, "git@") then "git@"
    else ""
  }

  /** The alternatives exclude each other, so the one a text starts with is
      the one it was written with. */
  lemma SchemeOfRender(p: string, x: string)
    requires IsScheme(p)
    ensures SchemeOf(p + x) == p
  {
    Unprefix(p, x);
    if p == "https://" {
      assert (p + x)[4] == 's';
    } else if p == "git@" {
      assert (p + x)[0] == 'g';
    }
  }

  /** `github.com[:/]?`: the character the `.` took, the separator taken and
      the rest. */
  function ParseDomain(s: string): Option<(char, string, string)> {
    if !StartsWith(s, "github") || |s| < 7 || s[6] == '\n' || !StartsWith(s[7..], "com") then None
    else
      var s3 := s[7..][3..];
      var sep := if SepStart(s3) then s3[..1] else "";
      Some((s[6], sep, s3[|sep|..]))
  }

  function ParseSite(s: string): Option<(Host, string)> {
    var scheme := SchemeOf(s);
    if scheme == "" then None
    else
      var d := ParseDomain(s[|scheme|..]);
      if d.None? then None
      else Some((Host(' ', ' ', scheme, d.value.0, d.value.1), d.value.2))
  }

  function ParseHost(s: string): Option<(Host, string)> {
    if !StartsWith(s, UrlKey) then None
    else
      var s1 := s[|UrlKey|..];
      if |s1| < 3 || !IsSpace(s1[0]) || s1[1] != '=' || !IsSpace(s1[2]) then None
      else
        var site := ParseSite(s1[3..]);
        if site.None? then None
        else Some((site.value.0.(eq1 := s1[0], eq2 := s1[2]), site.value.1))
  }

  lemma ParseDomainSound(s: string)
    requires ParseDomain(s).Some?
    ensures var (dot, sep, rest) := ParseDomain(s).value;
            dot != '\n' && (sep == "" || sep == ":" || sep == "/") && (sep == "" ==> !SepStart(rest))
            && s == "github" + ([dot] + ("com" + (sep + rest)))
  {
    var s7 := s[7..];
    var s3 := s7[3..];
    var sep := if SepStart(s3) then s3[..1] else "";
    var rest := s3[|sep|..];
    assert ParseDomain(s).value == (s[6], sep, rest);
    assert s3 == sep + rest by {
      Unsplit(s3, |sep|);
    }
    assert s7 == "com" + s3 by {
      Unsplit(s7, 3);
    }
    assert s == "github" + ([s[6]] + s7) by {
      Unsplit(s, 6);
      assert s[6..] == [s[6]] + s7;
    }
  }

  lemma ParseDomainComplete(h: Host, rest: string)
    requires HostOk(h)
    requires h.sep == "" ==> !SepStart(rest)
    ensures ParseDomain(RenderDomain(h, rest)) == Some((h.dot, h.sep, rest))
  {
    var s3 := h.sep + rest;
    var s7 := "com" + s3;
    var s := RenderDomain(h, rest);
    Unprefix("github", [h.dot] + s7);
    assert s[6] == h.dot && s[7..] == s7;
    Unprefix("com", s3);
    if h.sep == "" {
      assert s3 == rest;
    } else {
      assert SepStart(s3) && s3[..1] == h.sep;
      Unprefix(h.sep, rest);
    }
  }

  lemma ParseSiteSound(s: string)
    requires ParseSite(s).Some?
    ensures var (h, rest) := ParseSite(s).value;
            IsScheme(h.scheme) && h.dot != '\n' && (h.sep == "" || h.sep == ":" || h.sep == "/")
            && (h.sep == "" ==> !SepStart(rest)) && s == RenderSite(h, rest)
  {
    var scheme := SchemeOf(s);
    ParseDomainSound(s[|scheme|..]);
    Unsplit(s, |scheme|);
  }

  lemma ParseSiteComplete(h: Host, rest: string)
    requires HostOk(h)
    requires h.sep == "" ==> !SepStart(rest)
    ensures ParseSite(RenderSite(h, rest)) == Some((h.(eq1 := ' ', eq2 := ' '), rest))
  {
    SchemeOfRender(h.scheme, RenderDomain(h, rest));
    Unprefix(h.scheme, RenderDomain(h, rest));
    ParseDomainComplete(h, rest);
  }

  /** Text that starts with `\turl`, two characters around `=` and a site
      is the rendering of that host. */
  lemma HostShape(s: string, h: Host, rest: string)
    requires StartsWith(s, UrlKey) && |s| >= |UrlKey| + 3
    requires s[|UrlKey|] == h.eq1 && s[|UrlKey| + 1] == '=' && s[|UrlKey| + 2] == h.eq2
    requires RenderSite(h, rest) == s[|UrlKey| + 3..]
    ensures s == RenderHost(h, rest)
  {
    var s1 := s[|UrlKey|..];
    assert s1 == [h.eq1] + ("=" + ([h.eq2] + s1[3..])) by {
      Unsplit(s1, 3);
      assert s1[..3] == [s1[0], '=', s1[2]];
    }
    assert s1[3..] == s[|UrlKey| + 3..];
    Unsplit(s, |UrlKey|);
  }

  lemma ParseHostSound(s: string)
    requires ParseHost(s).Some?
    ensures HostOk(ParseHost(s).value.0)
    ensures s == RenderHost(ParseHost(s).value.0, ParseHost(s).value.1)
    ensures ParseHost(s).value.0.sep == "" ==> !SepStart(ParseHost(s).value.1)
  {
    var t := s[|UrlKey|..][3..];
    ParseSiteSound(t);
    var h := ParseHost(s).value.0;
    var rest := ParseHost(s).value.1;
    assert RenderSite(h, rest) == t;
    HostShape(s, h, rest);
  }

  lemma ParseHostComplete(h: Host, rest: string)
    requires HostOk(h)
    requires h.sep == "" ==> !SepStart(rest)
    ensures ParseHost(RenderHost(h, rest)) == Some((h, rest))
  {
    var t := RenderSite(h, rest);
    var s1 := [h.eq1] + ("=" + ([h.eq2] + t));
    Unprefix(UrlKey, s1);
    assert s1[3..] == t;
    ParseSiteComplete(h, rest);
  }

  /** The host parser accepts exactly the rendered hosts, where an absent
      `[:/]` is not followed by one. */
  lemma ParseHostIff(s: string, h: Host, rest: string)
    ensures ParseHost(s) == Some((h, rest))
            <==> HostOk(h) && s == RenderHost(h, rest) && (h.sep == "" ==> !SepStart(rest))
  {
    if ParseHost(s) == Some((h, rest)) {
      ParseHostSound(s);
    }
    if HostOk(h) && s == RenderHost(h, rest) && (h.sep == "" ==> !SepStart(rest)) {
      ParseHostComplete(h, rest);
    }
  }

  // ---------------------------------------------------------------------
  // `(?P<author>[A-Za-z0-9_-]+)/(?P<repo>[A-Za-z0-9_-]+)`

  datatype Path = Path(author: string, repo: string)

  predicate PathOk(p: Path) {
    Run(p.author, Ident) && Run(p.repo, Ident)
  }

  function RenderPath(p: Path, tail: string): string {
    p.author + ("/" + (p.repo + tail))
  }

  function ParsePath(s: string): Option<(Path, string)> {
    var a := Span(s, Ident);
    if a == 0 || a == |s| || s[a] != '/' then None
    else
      var s1 := s[a + 1..];
      var r := Span(s1, Ident);
      if r == 0 then None
      else Some((Path(s[..a], s1[..r]), s1[r..]))
  }

  lemma ParsePathSound(s: string)
    requires ParsePath(s).Some?
    ensures PathOk(ParsePath(s).value.0)
    ensures s == RenderPath(ParsePath(s).value.0, ParsePath(s).value.1)
    ensures StopsRun(ParsePath(s).value.1, Ident)
  {
    var a := Span(s, Ident);
    var s1 := s[a + 1..];
    var r := Span(s1, Ident);
    SpanFacts(s, Ident);
    SpanFacts(s1, Ident);
    Unsplit(s1, r);
    assert s == s[..a] + ("/" + s1) by {
      Unsplit(s, a);
      assert s[a..] == "/" + s1;
    }
  }

  lemma ParsePathComplete(p: Path, tail: string)
    requires PathOk(p) && StopsRun(tail, Ident)
    ensures ParsePath(RenderPath(p, tail)) == Some((p, tail))
  {
    var s1 := p.repo + tail;
    var s := p.author + ("/" + s1);
    SpanOf(p.author, "/" + s1, Ident);
    Unprefix(p.author, "/" + s1);
    assert s[|p.author|] == '/';
    assert s[|p.author| + 1..] == s1;
    SpanOf(p.repo, tail, Ident);
    Unprefix(p.repo, tail);
  }

  /** The path parser accepts exactly the rendered owner/name pairs whose
      name is not followed by another name character: the greedy `+`. */
  lemma ParsePathIff(s: string, p: Path, tail: string)
    ensures ParsePath(s) == Some((p, tail)) <==> PathOk(p) && s == RenderPath(p, tail) && StopsRun(tail, Ident)
  {
    if ParsePath(s) == Some((p, tail)) {
      ParsePathSound(s);
    }
    if PathOk(p) && s == RenderPath(p, tail) && StopsRun(tail, Ident) {
      ParsePathComplete(p, tail);
    }
  }

  // ---------------------------------------------------------------------
  // The whole pattern at one position.

  /** The three capture groups, plus the text the other tokens matched. */
  datatype RemoteMatch = RemoteMatch(header: Header, host: Host, path: Path)

  predicate MatchOk(m: RemoteMatch) {
    HeaderOk(m.header) && HostOk(m.host) && PathOk(m.path)
  }

  /** The text matched by `m`, followed by `tail`. */
  function Render(m: RemoteMatch, tail: string): string {
    RenderHeader(m.header, RenderHost(m.host, RenderPath(m.path, tail)))
  }

  /** `s` starts with a match of the pattern described by `m`, and `tail`,
      what follows it, cannot extend the repository name. */
  predicate Matched(s: string, m: RemoteMatch, tail: string) {
    MatchOk(m) && s == Render(m, tail) && StopsRun(tail, Ident)
  }

  /** The pattern, anchored at the start of `s`. */
  function MatchAt(s: string): (r: Option<(RemoteMatch, string)>)
    ensures r.Some? ==> Matched(s, r.value.0, r.value.1)
  {
    var header := ParseHeader(s);
    if header.None? then None
    else
      var host := ParseHost(header.value.1);
      if host.None? then None
      else
        var path := ParsePath(host.value.1);
        if path.None? then None
        else
          ParseHeaderSound(s);
          ParseHostSound(header.value.1);
          ParsePathSound(host.value.1);
          Some((RemoteMatch(header.value.0, host.value.0, path.value.0), path.value.1))
  }

  lemma MatchAtSound(s: string)
    requires MatchAt(s).Some?
    ensures Matched(s, MatchAt(s).value.0, MatchAt(s).value.1)
  {
  }

  lemma MatchAtComplete(m: RemoteMatch, tail: string)
    requires MatchOk(m) && StopsRun(tail, Ident)
    ensures MatchAt(Render(m, tail)) == Some((m, tail))
  {
    var afterHost := RenderPath(m.path, tail);
    var afterHeader := RenderHost(m.host, afterHost);
    assert ParseHeader(Render(m, tail)) == Some((m.header, afterHeader)) by {
      ParseHeaderComplete(m.header, afterHeader);
    }
    assert ParseHost(afterHeader) == Some((m.host, afterHost)) by {
      assert afterHost[0] == m.path.author[0];
      ParseHostComplete(m.host, afterHost);
    }
    ParsePathComplete(m.path, tail);
  }

  /** The recognizer accepts exactly the texts the pattern matches, and
      captures what the pattern's groups capture. */
  lemma MatchAtIff(s: string, m: RemoteMatch, tail: string)
    ensures MatchAt(s) == Some((m, tail)) <==> Matched(s, m, tail)
  {
    if MatchAt(s) == Some((m, tail)) {
      MatchAtSound(s);
    }
    if Matched(s, m, tail) {
      MatchAtComplete(m, tail);
    }
  }

  /** At any one position the pattern matches in at most one way. */
  lemma MatchUnique(s: string, m1: RemoteMatch, t1: string, m2: RemoteMatch, t2: string)
    requires Matched(s, m1, t1) && Matched(s, m2, t2)
    ensures m1 == m2 && t1 == t2
  {
    MatchAtIff(s, m1, t1);
    MatchAtIff(s, m2, t2);
  }

  // ---------------------------------------------------------------------
  // The leftmost match, and `repo_config`.

  /** Whether a match is one the search is after: any match at all (what
      `captures` finds), or only a block for the remote named `want`. */
  predicate Accepts(want: Option<string>, m: RemoteMatch) {
    want.None? || m.header.name == want.value
  }

  /** An accepted match starts at position `i` of `text`. */
  predicate Hit(text: string, i: nat, want: Option<string>)
    requires i <= |text|
  {
    MatchAt(text[i..]).Some? && Accepts(want, MatchAt(text[i..]).value.0)
  }

  /** No accepted match starts at a position in `[lo, hi)`. */
  ghost predicate NoneIn(text: string, lo: nat, hi: nat, want: Option<string>)
    requires hi <= |text| + 1
  {
    forall j, m, t :: lo <= j < hi && Matched(text[j..], m, t) ==> !Accepts(want, m)
  }

  /** What the pattern matches at each position of `text`, the end included. */
  function Scan(text: string): (c: seq<Option<(RemoteMatch, string)>>)
    ensures |c| == |text| + 1
    decreases |text|
  {
    if text == [] then [MatchAt(text)] else [MatchAt(text)] + Scan(text[1..])
  }

  lemma {:induction false} ScanAt(text: string, i: nat)
    requires i <= |text|
    ensures Scan(text)[i] == MatchAt(text[i..])
    decreases i
  {
    if i > 0 {
      ScanAt(text[1..], i - 1);
      assert text[1..][i - 1..] == text[i..];
    }
  }

  predicate HitIn(c: seq<Option<(RemoteMatch, string)>>, i: nat, want: Option<string>)
    requires i < |c|
  {
    c[i].Some? && Accepts(want, c[i].value.0)
  }

  /** The first accepted candidate at or after `k`, with its position. */
  function SearchIn(c: seq<Option<(RemoteMatch, string)>>, k: nat, want: Option<string>): (r: Option<(nat, RemoteMatch)>)
    requires k < |c|
    ensures r.Some? ==> k <= r.value.0 < |c|
    decreases |c| - k
  {
    if HitIn(c, k, want) then Some((k, c[k].value.0))
    else if k == |c| - 1 then None
    else SearchIn(c, k + 1, want)
  }

  /** The search reports a hit where it stops. */
  lemma {:induction false} SearchInFound(c: seq<Option<(RemoteMatch, string)>>, k: nat, want: Option<string>)
    requires k < |c| && SearchIn(c, k, want).Some?
    ensures var r := SearchIn(c, k, want).value;
            HitIn(c, r.0, want) && c[r.0].value.0 == r.1
    decreases |c| - k
  {
    if !HitIn(c, k, want) {
      SearchInFound(c, k + 1, want);
    }
  }

  /** The search passes over no hit. */
  lemma {:induction false} SearchInMisses(c: seq<Option<(RemoteMatch, string)>>, k: nat, want: Option<string>, i: nat)
    requires k <= i < |c|
    requires SearchIn(c, k, want).None? || i < SearchIn(c, k, want).value.0
    ensures !HitIn(c, i, want)
    decreases |c| - k
  {
    if i > k {
      SearchInMisses(c, k + 1, want, i);
    }
  }

  /** A hit at `k` with no hit before it is what the search finds. */
  lemma {:induction false} SearchInReaches(c: seq<Option<(RemoteMatch, string)>>, i: nat, k: nat, want: Option<string>)
    requires i <= k < |c| && HitIn(c, k, want)
    requires forall j :: i <= j < k ==> !HitIn(c, j, want)
    ensures SearchIn(c, i, want) == Some((k, c[k].value.0))
    decreases k - i
  {
    if i < k {
      SearchInReaches(c, i + 1, k, want);
    }
  }

  /** The leftmost accepted match in `text`, with its position. */
  function Search(text: string, want: Option<string>): Option<(nat, RemoteMatch)> {
    SearchIn(Scan(text), 0, want)
  }

  /** A hit means a match in the declarative sense. */
  lemma HitMatched(text: string, j: nat, want: Option<string>)
    requires j <= |text| && HitIn(Scan(text), j, want)
    ensures MatchAt(text[j..]).Some?
    ensures Matched(text[j..], MatchAt(text[j..]).value.0, MatchAt(text[j..]).value.1)
    ensures Accepts(want, MatchAt(text[j..]).value.0) && Hit(text, j, want)
  {
    ScanAt(text, j);
    MatchAtSound(text[j..]);
  }

  /** What the search finds is a match in the declarative sense, and no
      accepted match starts before it. */
  lemma SearchFound(text: string, want: Option<string>)
    requires Search(text, want).Some?
    ensures var (k, m) := Search(text, want).value;
            k <= |text| && MatchAt(text[k..]).Some? && MatchAt(text[k..]).value.0 == m
            && Matched(text[k..], m, MatchAt(text[k..]).value.1) && Accepts(want, m)
            && NoneIn(text, 0, k, want)
  {
    var c := Scan(text);
    SearchInFound(c, 0, want);
    var k := Search(text, want).value.0;
    HitMatched(text, k, want);
    ScanAt(text, k);
    forall j, m, t | 0 <= j < k && Matched(text[j..], m, t)
      ensures !Accepts(want, m)
    {
      MatchAtIff(text[j..], m, t);
      ScanAt(text, j);
      SearchInMisses(c, 0, want, j);
    }
  }

  /** Leftmost search: when an accepted match starts at `k` and none starts
      before it, the search finds that match at `k`. */
  lemma SearchLeftmost(text: string, k: nat, m: RemoteMatch, tail: string, want: Option<string>)
    requires k <= |text| && Matched(text[k..], m, tail) && Accepts(want, m)
    requires NoneIn(text, 0, k, want)
    ensures Search(text, want) == Some((k, m))
  {
    var c := Scan(text);
    MatchAtIff(text[k..], m, tail);
    ScanAt(text, k);
    forall j | 0 <= j < k
      ensures !HitIn(c, j, want)
    {
      if HitIn(c, j, want) {
        HitMatched(text, j, want);
      }
    }
    SearchInReaches(c, 0, k, want);
  }

  /** With no accepted match anywhere, the search finds nothing. */
  lemma SearchNothing(text: string, want: Option<string>)
    requires NoneIn(text, 0, |text| + 1, want)
    ensures Search(text, want) == None
  {
    if Search(text, want).Some? {
      SearchFound(text, want);
      assert false;
    }
  }

  /** With nothing found, no accepted match starts anywhere in the text. */
  lemma SearchNone(text: string, want: Option<string>)
    requires Search(text, want).None?
    ensures NoneIn(text, 0, |text| + 1, want)
  {
    var c := Scan(text);
    forall j, m, t | 0 <= j < |text| + 1 && Matched(text[j..], m, t)
      ensures !Accepts(want, m)
    {
      MatchAtIff(text[j..], m, t);
      ScanAt(text, j);
      SearchInMisses(c, 0, want, j);
    }
  }

  /** `re.captures(text)`: the leftmost match of the pattern. It finds
      nothing exactly when the pattern matches nowhere; otherwise it finds a
      match with none before it. */
  function FirstMatch(text: string): (r: Option<(nat, RemoteMatch)>)
    ensures r.None? ==> NoneIn(text, 0, |text| + 1, None)
    ensures r.Some? ==> r.value.0 <= |text| && MatchAt(text[r.value.0..]).Some?
                        && MatchAt(text[r.value.0..]).value.0 == r.value.1
                        && NoneIn(text, 0, r.value.0, None)
  {
    var r := Search(text, None);
    if r.None? then
      SearchNone(text, None);
      r
    else
      SearchFound(text, None);
      r
  }

  /** `repo_config`: the leftmost match, kept only when its remote is the one
      asked for; everything else is the one configuration error. */
  function RepoConfig(text: string, remote: string): (r: Result<RepoData>)
    ensures r.Ok? ==> Run(r.value.author, Ident) && Run(r.value.repoName, Ident)
    ensures r.Err? ==> r.error == Repo(NoConfig)
  {
    var first := FirstMatch(text);
    if first.None? || first.value.1.header.name != remote then Err(Repo(NoConfig))
    else
      SearchFound(text, None);
      Ok(RepoData(first.value.1.path.author, first.value.1.path.repo))
  }

  /** The outcome is decided by the leftmost match alone: its owner and name
      when its remote is the one asked for, the configuration error when
      not. */
  lemma RepoConfigLeftmost(text: string, remote: string, k: nat, m: RemoteMatch, tail: string)
    requires k <= |text| && Matched(text[k..], m, tail)
    requires NoneIn(text, 0, k, None)
    ensures RepoConfig(text, remote)
            == if m.header.name == remote then Ok(RepoData(m.path.author, m.path.repo)) else Err(Repo(NoConfig))
  {
    SearchLeftmost(text, k, m, tail, None);
  }

  /** Text in which the pattern matches nowhere is a configuration error,
      whatever remote is asked for. */
  lemma RepoConfigNoMatch(text: string, remote: string)
    requires NoneIn(text, 0, |text| + 1, None)
    ensures RepoConfig(text, remote) == Err(Repo(NoConfig))
  {
    SearchNothing(text, None);
  }

  /** A success always comes from a match: some position holds a match for
      the remote asked for, with that owner and name, and no match of any
      remote starts before it. */
  lemma RepoConfigOk(text: string, remote: string)
    requires RepoConfig(text, remote).Ok?
    ensures FirstMatch(text).Some?
    ensures var (k, m) := FirstMatch(text).value;
            k <= |text| && MatchAt(text[k..]).Some? && Matched(text[k..], m, MatchAt(text[k..]).value.1)
            && NoneIn(text, 0, k, None)
            && m.header.name == remote && RepoConfig(text, remote).value == RepoData(m.path.author, m.path.repo)
  {
    SearchFound(text, None);
  }

  // ---------------------------------------------------------------------
  // Passing over text where no match can start.

  /** A search result moved `d` positions to the right. */
  function Shift(r: Option<(nat, RemoteMatch)>, d: nat): Option<(nat, RemoteMatch)> {
    if r.None? then None else Some((r.value.0 + d, r.value.1))
  }

  /** Searching candidates `a + b` from inside `b` is searching `b`, moved
      by `|a|`. */
  lemma {:induction false} ShiftIn(a: seq<Option<(RemoteMatch, string)>>, b: seq<Option<(RemoteMatch, string)>>, j: nat, want: Option<string>)
    requires j < |b|
    ensures SearchIn(a + b, |a| + j, want) == Shift(SearchIn(b, j, want), |a|)
    decreases |b| - j
  {
    assert (a + b)[|a| + j] == b[j];
    if !HitIn(b, j, want) && j < |b| - 1 {
      ShiftIn(a, b, j + 1, want);
    }
  }

  /** A first position without a hit can be passed over. */
  lemma SkipHead(s: string, want: Option<string>)
    requires s != []
    requires MatchAt(s).None? || !Accepts(want, MatchAt(s).value.0)
    ensures Search(s, want) == Shift(Search(s[1..], want), 1)
  {
    var c := Scan(s);
    assert c == [MatchAt(s)] + Scan(s[1..]);
    assert !HitIn(c, 0, want);
    assert SearchIn(c, 0, want) == SearchIn(c, 1, want);
    ShiftIn([MatchAt(s)], Scan(s[1..]), 0, want);
  }

  /** Text in which every `[` is followed, within the text, by something
      other than `r`: no match can start in it. */
  predicate Quiet(x: string) {
    forall i :: 0 <= i < |x| && x[i] == '[' ==> i + 1 < |x| && x[i + 1] != 'r'
  }

  lemma QuietPlain(x: string)
    requires '[' !in x
    ensures Quiet(x)
  {
  }

  lemma QuietAppend(x: string, y: string)
    requires Quiet(x) && Quiet(y)
    ensures Quiet(x + y)
  {
    forall i | 0 <= i < |x + y| && (x + y)[i] == '['
      ensures i + 1 < |x + y| && (x + y)[i + 1] != 'r'
    {
      if i < |x| {
        assert x[i] == '[';
      } else {
        assert y[i - |x|] == '[';
      }
    }
  }

  /** What is left of quiet text after its first character is quiet. */
  lemma QuietTail(x: string)
    requires x != [] && Quiet(x)
    ensures Quiet(x[1..])
  {
    forall i | 0 <= i < |x[1..]| && x[1..][i] == '['
      ensures i + 1 < |x[1..]| && x[1..][i + 1] != 'r'
    {
      assert x[i + 1] == '[';
    }
  }

  /** No match starts at the first character of quiet text. */
  lemma QuietHead(x: string, y: string)
    requires x != [] && Quiet(x)
    ensures MatchAt(x + y).None?
  {
    var s := x + y;
    assert s[0] == x[0];
    assert x[0] == '[' ==> s[1] == x[1];
    assert |s| >= |RemoteOpen| ==> s[..|RemoteOpen|][0] == s[0] && s[..|RemoteOpen|][1] == s[1];
    assert !StartsWith(s, RemoteOpen);
  }

  /** One quiet character in front of `y` moves the search result by one. */
  lemma SkipQuietStep(x: string, y: string, want: Option<string>)
    requires x != [] && Quiet(x)
    requires Search(x[1..] + y, want) == Shift(Search(y, want), |x| - 1)
    ensures Search(x + y, want) == Shift(Search(y, want), |x|)
  {
    QuietSkipHead(x, y, want);
    ShiftTwice(Search(y, want), |x| - 1, 1);
  }

  /** The first character of quiet text can be passed over. */
  lemma QuietSkipHead(x: string, y: string, want: Option<string>)
    requires x != [] && Quiet(x)
    ensures Search(x + y, want) == Shift(Search(x[1..] + y, want), 1)
  {
    QuietHead(x, y);
    SkipHead(x + y, want);
    DropFirst(x, y);
  }

  lemma DropFirst(x: string, y: string)
    requires x != []
    ensures (x + y)[1..] == x[1..] + y
  {
  }

  /** No match starts in quiet text that stands in front of `y`. */
  lemma {:induction false} SkipQuiet(x: string, y: string, want: Option<string>)
    requires Quiet(x)
    ensures Search(x + y, want) == Shift(Search(y, want), |x|)
  {
    if x == [] {
      assert x + y == y;
      ShiftTwice(Search(y, want), 0, 0);
    } else {
      QuietTail(x);
      SkipQuiet(x[1..], y, want);
      SkipQuietStep(x, y, want);
    }
  }

  lemma ShiftTwice(r: Option<(nat, RemoteMatch)>, d: nat, e: nat)
    ensures Shift(Shift(r, d), e) == Shift(r, d + e)
    ensures Shift(r, 0) == r
  {
  }

  /** Nothing is found in quiet text. */
  lemma QuietNothing(x: string, want: Option<string>)
    requires Quiet(x)
    ensures Search(x, want) == None
  {
    SkipQuiet(x, "", want);
    assert x + "" == x;
  }

  /** A match for a remote not asked for, followed by quiet text up to
      `y`, is passed over: the search goes on in `y`. */
  lemma SkipRejected(x: string, y: string, want: Option<string>)
    requires x != [] && Quiet(x[1..])
    requires MatchAt(x + y).None? || !Accepts(want, MatchAt(x + y).value.0)
    ensures Search(x + y, want) == Shift(Search(y, want), |x|)
  {
    SkipHead(x + y, want);
    DropFirst(x, y);
    SkipQuiet(x[1..], y, want);
    ShiftTwice(Search(y, want), |x| - 1, 1);
  }

  /** A block that matches at the very start of the text is what the search
      finds, whatever follows it. */
  lemma FoundAtStart(m: RemoteMatch, tail: string, want: Option<string>)
    requires MatchOk(m) && StopsRun(tail, Ident) && Accepts(want, m)
    ensures Search(Render(m, tail), want) == Some((0, m))
  {
    MatchAtComplete(m, tail);
    assert Scan(Render(m, tail))[0] == MatchAt(Render(m, tail));
  }

  // ---------------------------------------------------------------------
  // Only the first block is ever looked at.

  /** When the first block of the text is for another remote, `repo_config`
      fails, even if a block for the remote asked for follows. */
  lemma FirstBlockDecides(m: RemoteMatch, tail: string, remote: string)
    requires MatchOk(m) && StopsRun(tail, Ident) && m.header.name != remote
    ensures RepoConfig(Render(m, tail), remote) == Err(Repo(NoConfig))
  {
    FoundAtStart(m, tail, None);
  }

  /** The evident intent: the leftmost block for the remote asked for. */
  function RepoConfigNamed(text: string, remote: string): (r: Result<RepoData>)
    ensures r.Ok? ==> Run(r.value.author, Ident) && Run(r.value.repoName, Ident)
    ensures r.Err? ==> r.error == Repo(NoConfig)
  {
    var found := Search(text, Some(remote));
    if found.None? then Err(Repo(NoConfig))
    else
      SearchFound(text, Some(remote));
      Ok(RepoData(found.value.1.path.author, found.value.1.path.repo))
  }

  /** The corrected reading finds the leftmost block for the remote asked
      for, whatever blocks for other remotes come before it. */
  lemma RepoConfigNamedFinds(text: string, remote: string, k: nat, m: RemoteMatch, tail: string)
    requires k <= |text| && Matched(text[k..], m, tail) && m.header.name == remote
    requires NoneIn(text, 0, k, Some(remote))
    ensures RepoConfigNamed(text, remote) == Ok(RepoData(m.path.author, m.path.repo))
  {
    SearchLeftmost(text, k, m, tail, Some(remote));
  }

  /** Without a block for the remote asked for, the corrected reading fails
      with the one configuration error. */
  lemma RepoConfigNamedNone(text: string, remote: string)
    requires NoneIn(text, 0, |text| + 1, Some(remote))
    ensures RepoConfigNamed(text, remote) == Err(Repo(NoConfig))
  {
    SearchNothing(text, Some(remote));
  }

  /** Whenever `repo_config` succeeds, the corrected reading agrees. */
  lemma NamedAgrees(text: string, remote: string)
    requires RepoConfig(text, remote).Ok?
    ensures RepoConfigNamed(text, remote) == RepoConfig(text, remote)
  {
    RepoConfigOk(text, remote);
    var (k, m) := FirstMatch(text).value;
    assert NoneIn(text, 0, k, Some(remote));
    RepoConfigNamedFinds(text, remote, k, m, MatchAt(text[k..]).value.1);
  }
}
