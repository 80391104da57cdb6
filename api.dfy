/** The request sent to the forge and what is made of its answer:
    `build_request_payload` (src/gitpr.rs:316-325), and the endpoint and the
    response classification of `fetch_api` (src/gitpr.rs:344-375). The HTTP
    exchange itself is an input: what came back, or why nothing did. */
module Api {
  import opened RustStr
  import opened PrTypes
  import Config

  /** `serde_json::Value`, restricted to what this code builds and reads.
      An object is a map from keys to values, so two objects are equal when
      they hold the same pairs, in whatever order they were written. */
  datatype Json =
    | JNull
    | JBool(b: bool)
    | JNumber(n: int)
    | JString(s: string)
    | JArray(items: seq<Json>)
    | JObject(fields: map<string, Json>)

  // ---------------------------------------------------------------------
  // The request body.

  const PayloadKeys: set<string> := {"title", "body", "head", "base"}

  /** `build_request_payload`: the four fields the forge needs to open a
      pull request. */
  function BuildRequestPayload(pr: PullRequest): (v: Json)
    ensures v.JObject? && v.fields.Keys == PayloadKeys
  {
    JObject(map["title" := JString(pr.message.title), "body" := JString(pr.message.body),
                "head" := JString(pr.headBranch), "base" := JString(pr.targetBranch)])
  }

  /** The string under `key`, when `v` is an object holding one there. */
  function StringField(v: Json, key: string): Option<string> {
    if v.JObject? && key in v.fields && v.fields[key].JString? then Some(v.fields[key].s) else None
  }

  /** Reads a payload back: the pull request it describes, when all four
      fields are strings. */
  function PayloadRequest(v: Json): (r: Option<PullRequest>)
    ensures r.Some? ==> v.JObject? && PayloadKeys <= v.fields.Keys
  {
    var title := StringField(v, "title");
    var body := StringField(v, "body");
    var head := StringField(v, "head");
    var base := StringField(v, "base");
    if title.None? || body.None? || head.None? || base.None? then None
    else Some(PullRequest(base.value, head.value, PullRequestMsg(title.value, body.value)))
  }

  /** Each field of the pull request is carried unchanged under its key. */
  lemma PayloadRoundTrip(pr: PullRequest)
    ensures PayloadRequest(BuildRequestPayload(pr)) == Some(pr)
  {
    var v := BuildRequestPayload(pr);
    assert StringField(v, "title") == Some(pr.message.title);
    assert StringField(v, "body") == Some(pr.message.body);
    assert StringField(v, "head") == Some(pr.headBranch);
    assert StringField(v, "base") == Some(pr.targetBranch);
  }

  /** A payload with exactly the four keys, all strings, is the one built
      from the pull request it describes. */
  lemma PayloadOfRequest(v: Json)
    requires PayloadRequest(v).Some? && v.fields.Keys == PayloadKeys
    ensures v == BuildRequestPayload(PayloadRequest(v).value)
  {
    var w := BuildRequestPayload(PayloadRequest(v).value);
    assert v.fields.Keys == w.fields.Keys;
    forall k | k in v.fields
      ensures v.fields[k] == w.fields[k]
    {
      assert k == "title" || k == "body" || k == "head" || k == "base";
    }
    assert v.fields == w.fields;
  }

  /** Different pull requests never give the same payload. */
  lemma PayloadInjective(a: PullRequest, b: PullRequest)
    requires BuildRequestPayload(a) == BuildRequestPayload(b)
    ensures a == b
  {
    PayloadRoundTrip(a);
    PayloadRoundTrip(b);
  }

  /** The unit test: a pull from `test` into `master`. */
  lemma PayloadExample()
    ensures BuildRequestPayload(PullRequest("master", "test", PullRequestMsg("test title", "this is a test msg body")))
            == JObject(map["title" := JString("test title"), "body" := JString("this is a test msg body"),
                           "head" := JString("test"), "base" := JString("master")])
  {
  }

  // ---------------------------------------------------------------------
  // The endpoint.

  const Https := "https://"
  const ApiRepos := "@api.github.com/repos/"
  const Pulls := "/pulls"

  /** The `format!` of `fetch_api`: the owner and the token as credentials,
      then the pull-request collection of the owner's repository. */
  function EndpointUrl(repo: RepoData, token: string): (url: string)
    ensures StartsWith(url, Https + (repo.author + (":" + token)))
    ensures EndsWith(url, ApiRepos + (repo.author + ("/" + (repo.repoName + Pulls))))
  {
    var path := ApiRepos + (repo.author + ("/" + (repo.repoName + Pulls)));
    Assoc(Https, repo.author + (":" + token), path);
    Assoc(repo.author, ":" + token, path);
    Assoc(":", token, path);
    Unprefix(Https + (repo.author + (":" + token)), path);
    Https + (repo.author + (":" + (token + (ApiRepos + (repo.author + ("/" + (repo.repoName + Pulls)))))))
  }

  /** Index of the last `c` in `s`, or -1. */
  function LastIndexOf(s: string, c: char): (i: int)
    ensures -1 <= i < |s|
    ensures i >= 0 ==> s[i] == c
    ensures forall j :: i < j < |s| ==> s[j] != c
  {
    if s == [] then -1
    else if s[|s| - 1] == c then |s| - 1
    else LastIndexOf(s[..|s| - 1], c)
  }

  /** Reads an endpoint back: the owner is what stands before the first `:`;
      the token and the repository are read off what follows it. */
  function EndpointParts(url: string): Option<(RepoData, string)> {
    if !StartsWith(url, Https) then None
    else
      var s := url[|Https|..];
      var i := IndexOf(s, ':');
      if i == |s| then None
      else
        var back := TokenAndName(s[i + 1..], s[..i]);
        if back.None? then None else Some((RepoData(s[..i], back.value.1), back.value.0))
  }

  /** What follows the owner's `:`: the repository is what follows the last
      `/` before `/pulls`, and the token is what comes before the fixed host
      and the owner. */
  function TokenAndName(rest: string, author: string): Option<(string, string)> {
    if !EndsWith(rest, Pulls) then None
    else
      var core := rest[..|rest| - |Pulls|];
      var j := LastIndexOf(core, '/');
      var front := core[..j + 1];
      var mid := ApiRepos + (author + "/");
      if !EndsWith(front, mid) then None
      else Some((front[..|front| - |mid|], core[j + 1..]))
  }

  lemma Halves(a: string, b: string)
    ensures (a + b)[..|a|] == a && (a + b)[|a|..] == b
  {
  }

  /** The search from the right stops at the last `c`. */
  lemma LastIndexOfAt(s: string, c: char, i: nat)
    requires i < |s| && s[i] == c
    requires forall j :: i < j < |s| ==> s[j] != c
    ensures LastIndexOf(s, c) == i
  {
    var r := LastIndexOf(s, c);
    assert i <= r;
  }

  /** The last `/` of `front + [/] + back`, when `back` has none. */
  lemma LastSlash(front: string, back: string)
    requires '/' !in back
    ensures LastIndexOf(front + ("/" + back), '/') == |front|
  {
    var s := front + ("/" + back);
    assert s[|front|] == '/';
    assert s[|front| + 1..] == back;
    forall k | |front| < k < |s|
      ensures s[k] != '/'
    {
      assert s[k] == s[|front| + 1..][k - |front| - 1];
    }
    LastIndexOfAt(s, '/', |front|);
  }

  /** The text after the owner's `:` gives back the token and the name. */
  lemma TokenAndNameRoundTrip(author: string, token: string, name: string)
    requires '/' !in name
    ensures TokenAndName(token + (ApiRepos + (author + ("/" + (name + Pulls)))), author) == Some((token, name))
  {
    var mid := ApiRepos + (author + "/");
    var front := token + mid;
    var core := front + name;
    var rest := core + Pulls;
    TokenAndNameLayout(author, token, name);
    Halves(core, Pulls);
    assert rest[..|rest| - |Pulls|] == core;
    LastSlash(token + (ApiRepos + author), name);
    Halves(front, name);
    Halves(token, mid);
  }

  /** The text after the owner's `:`, grouped as `TokenAndName` reads it. */
  lemma TokenAndNameLayout(author: string, token: string, name: string)
    ensures var front := token + (ApiRepos + (author + "/"));
            && token + (ApiRepos + (author + ("/" + (name + Pulls)))) == front + name + Pulls
            && front + name == (token + (ApiRepos + author)) + ("/" + name)
            && |front| == |token + (ApiRepos + author)| + 1
  {
    var a := token + (ApiRepos + author);
    var front := token + (ApiRepos + (author + "/"));
    assert front == a + "/" by {
      Assoc(ApiRepos, author, "/");
      Assoc(token, ApiRepos + author, "/");
    }
    Assoc(a, "/", name);
    assert token + (ApiRepos + (author + ("/" + (name + Pulls)))) == a + ("/" + name) + Pulls by {
      Assoc("/", name, Pulls);
      Assoc(author, "/" + name, Pulls);
      Assoc(ApiRepos, author + ("/" + name), Pulls);
      Assoc(token, ApiRepos + (author + ("/" + name)), Pulls);
      Assoc(ApiRepos, author, "/" + name);
      Assoc(token, ApiRepos + author, "/" + name);
    }
  }

  /** The endpoint of an owner without `:` and a repository name without `/`
      gives back that owner, name and token, whatever the token holds. */
  lemma EndpointRoundTrip(repo: RepoData, token: string)
    requires ':' !in repo.author && '/' !in repo.repoName
    ensures EndpointParts(EndpointUrl(repo, token)) == Some((repo, token))
  {
    var author := repo.author;
    var rest := token + (ApiRepos + (author + ("/" + (repo.repoName + Pulls))));
    var s := author + (":" + rest);
    Halves(Https, s);
    assert s[|author|] == ':';
    IndexOfAt(s, ':', |author|);
    Halves(author, ":" + rest);
    assert s[|author| + 1..] == rest;
    TokenAndNameRoundTrip(author, token, repo.repoName);
  }

  /** An owner and a name made of `[A-Za-z0-9_-]` only make an endpoint from
      which they, and the token, come back. */
  lemma EndpointOfIdents(repo: RepoData, token: string)
    requires Config.Run(repo.author, Config.Ident) && Config.Run(repo.repoName, Config.Ident)
    ensures EndpointParts(EndpointUrl(repo, token)) == Some((repo, token))
  {
    assert ':' !in repo.author by {
      forall i | 0 <= i < |repo.author|
        ensures repo.author[i] != ':'
      {
        assert Config.InClass(repo.author[i], Config.Ident);
      }
    }
    assert '/' !in repo.repoName by {
      forall i | 0 <= i < |repo.repoName|
        ensures repo.repoName[i] != '/'
      {
        assert Config.InClass(repo.repoName[i], Config.Ident);
      }
    }
    EndpointRoundTrip(repo, token);
  }

  /** A repository that `repo_config` finds always makes an endpoint from
      which its owner, its name and the token come back. */
  lemma EndpointOfConfig(text: string, remote: string, token: string)
    requires Config.RepoConfig(text, remote).Ok?
    ensures EndpointParts(EndpointUrl(Config.RepoConfig(text, remote).value, token))
            == Some((Config.RepoConfig(text, remote).value, token))
  {
    EndpointOfIdents(Config.RepoConfig(text, remote).value, token);
  }

  /** The same for the block that the corrected configuration reading finds. */
  lemma EndpointOfNamedConfig(text: string, remote: string, token: string)
    requires Config.RepoConfigNamed(text, remote).Ok?
    ensures EndpointParts(EndpointUrl(Config.RepoConfigNamed(text, remote).value, token))
            == Some((Config.RepoConfigNamed(text, remote).value, token))
  {
    EndpointOfIdents(Config.RepoConfigNamed(text, remote).value, token);
  }

  lemma EndpointExample()
    ensures EndpointUrl(RepoData("jafow", "git-pr"), "t0k3n")
            == "https://jafow:t0k3n" + ("@api.github.com/repos/" + ("jafow/git-pr" + "/pulls"))
  {
    var x := ApiRepos + ("jafow" + ("/" + ("git-pr" + Pulls)));
    assert EndpointUrl(RepoData("jafow", "git-pr"), "t0k3n") == Https + ("jafow" + (":" + ("t0k3n" + x)));
    Assoc(":", "t0k3n", x);
    Assoc("jafow", ":" + "t0k3n", x);
    Assoc(Https, "jafow" + (":" + "t0k3n"), x);
    assert Https + ("jafow" + (":" + "t0k3n")) == "https://jafow:t0k3n";
    assert x == "@api.github.com/repos/" + ("jafow/git-pr" + "/pulls") by {
      Assoc("/", "git-pr", Pulls);
      Assoc("jafow", "/" + "git-pr", Pulls);
      assert "jafow" + ("/" + "git-pr") == "jafow/git-pr";
    }
  }

  // ---------------------------------------------------------------------
  // The answer.

  /** What the HTTP exchange gave: a status and the decoded JSON body, or
      the transport's error. */
  datatype Exchange = Answered(status: nat, body: Json) | Failed(cause: string)

  /** `VcsApiResponseSuccess`: where the new pull request lives, and its number. */
  datatype ApiSuccess = ApiSuccess(htmlUrl: string, number: nat)

  /** `http::status::StatusCode::CREATED` */
  const Created := 201

  /** One more than the largest `u32`. */
  const U32Bound := 0x1_0000_0000

  /** The description of a body that has not the shape expected of it. */
  const BadBody := "invalid response body"

  /** A JSON number that a `u32` can hold. */
  predicate IsU32(v: Json) {
    v.JNumber? && 0 <= v.n < U32Bound
  }

  /** `body_json::<VcsApiResponseSuccess>`, the derived decoding of the
      struct: an object with a string `html_url` and a `number` that fits in
      a `u32`, other keys ignored, or an array of exactly those two values in
      field order. Any other body fails to decode, as an I/O error. */
  function DecodeSuccess(body: Json): (r: Result<ApiSuccess>)
    ensures r.Err? ==> r.error == Io(BadBody)
    ensures r.Ok? ==> r.value.number < U32Bound
    ensures body.JObject? ==>
              (r.Ok? <==> StringField(body, "html_url").Some? && "number" in body.fields && IsU32(body.fields["number"]))
    ensures body.JObject? && r.Ok? ==>
              StringField(body, "html_url") == Some(r.value.htmlUrl) && body.fields["number"] == JNumber(r.value.number)
    ensures body.JArray? ==>
              (r.Ok? <==> |body.items| == 2 && body.items[0].JString? && IsU32(body.items[1]))
    ensures body.JArray? && r.Ok? ==> body.items == [JString(r.value.htmlUrl), JNumber(r.value.number)]
    ensures !body.JObject? && !body.JArray? ==> r.Err?
  {
    match body
    case JObject(fields) =>
      var url := StringField(body, "html_url");
      if url.None? || "number" !in fields || !IsU32(fields["number"]) then Err(Io(BadBody))
      else Ok(ApiSuccess(url.value, fields["number"].n))
    case JArray(items) =>
      if |items| == 2 && items[0].JString? && IsU32(items[1]) then Ok(ApiSuccess(items[0].s, items[1].n))
      else Err(Io(BadBody))
    case _ => Err(Io(BadBody))
  }

  /** `body_json::<VcsApiResponseError>`: an object with a string `message`,
      other keys ignored, or an array holding exactly that string. */
  function DecodeError(body: Json): (r: Result<string>)
    ensures r.Err? ==> r.error == Io(BadBody)
    ensures body.JObject? ==> (r.Ok? <==> StringField(body, "message").Some?)
    ensures body.JObject? && r.Ok? ==> StringField(body, "message") == Some(r.value)
    ensures body.JArray? ==> (r.Ok? <==> |body.items| == 1 && body.items[0].JString?)
    ensures body.JArray? && r.Ok? ==> body.items == [JString(r.value)]
    ensures !body.JObject? && !body.JArray? ==> r.Err?
  {
    match body
    case JObject(_) =>
      var message := StringField(body, "message");
      if message.None? then Err(Io(BadBody)) else Ok(message.value)
    case JArray(items) =>
      if |items| == 1 && items[0].JString? then Ok(items[0].s) else Err(Io(BadBody))
    case _ => Err(Io(BadBody))
  }

  /** What `fetch_api` returns for an exchange: a failed exchange is the
      transport's error; `201 Created` is the decoded success; any other
      status is the API error carrying the forge's message. A body of the
      wrong shape fails to decode either way. */
  function FetchOutcome(x: Exchange): (r: Result<ApiSuccess>)
    ensures x.Failed? ==> r == Err(Other(x.cause))
    ensures r.Ok? <==> x.Answered? && x.status == Created && DecodeSuccess(x.body).Ok?
    ensures r.Ok? ==> r == DecodeSuccess(x.body)
    ensures x.Answered? && x.status != Created ==> r.Err? && (r.error.Api? || r.error == Io(BadBody))
    ensures x.Answered? && x.status != Created && StringField(x.body, "message").Some? ==>
              r == Err(Api(StringField(x.body, "message").value))
    ensures x.Answered? && x.status == Created ==> r == DecodeSuccess(x.body)
    ensures x.Answered? && x.status != Created && DecodeError(x.body).Ok? ==>
              r == Err(Api(DecodeError(x.body).value))
    ensures x.Answered? && x.status != Created && DecodeError(x.body).Err? ==> r == Err(Io(BadBody))
  {
    match x
    case Failed(cause) => Err(Other(cause))
    case Answered(status, body) =>
      if status == Created then DecodeSuccess(body)
      else
        var message := DecodeError(body);
        if message.Err? then Err(message.error) else Err(Api(message.value))
  }

  /** The JSON of a success, as the forge sends it. */
  function SuccessBody(s: ApiSuccess): Json {
    JObject(map["html_url" := JString(s.htmlUrl), "number" := JNumber(s.number)])
  }

  /** The JSON of a refusal, as the forge sends it. */
  function ErrorBody(message: string): Json {
    JObject(map["message" := JString(message)])
  }

  /** An object answer succeeds with a given URL and number exactly when the
      status is `201`, the body's `html_url` is that URL and its `number` is
      that number, within `u32`. */
  lemma FetchOk(status: nat, fields: map<string, Json>, s: ApiSuccess)
    ensures FetchOutcome(Answered(status, JObject(fields))) == Ok(s)
            <==> status == Created && StringField(JObject(fields), "html_url") == Some(s.htmlUrl)
                 && "number" in fields && fields["number"] == JNumber(s.number) && s.number < U32Bound
  {
  }

  /** A success sent by the forge comes back as it was sent, whatever other
      fields the body carries. */
  lemma SuccessRoundTrip(s: ApiSuccess, extra: map<string, Json>)
    requires s.number < U32Bound
    ensures FetchOutcome(Answered(Created, SuccessBody(s))) == Ok(s)
    ensures var f := extra + SuccessBody(s).fields;
            FetchOutcome(Answered(Created, JObject(f))) == Ok(s)
  {
    var f := extra + SuccessBody(s).fields;
    assert f["html_url"] == JString(s.htmlUrl) && f["number"] == JNumber(s.number);
    assert StringField(JObject(f), "html_url") == Some(s.htmlUrl);
    assert StringField(SuccessBody(s), "html_url") == Some(s.htmlUrl);
  }

  /** A refusal carries the forge's message through unchanged, whatever
      status other than `201` came with it and whatever other fields the
      body holds. */
  lemma RefusalRoundTrip(status: nat, body: Json, message: string)
    requires status != Created && StringField(body, "message") == Some(message)
    ensures FetchOutcome(Answered(status, body)) == Err(Api(message))
  {
  }

  /** A status other than `201` never succeeds, whatever the body holds; it
      is the API error exactly when the body decodes as a refusal. */
  lemma OnlyCreatedSucceeds(status: nat, body: Json)
    requires status != Created
    ensures FetchOutcome(Answered(status, body)).Err?
    ensures FetchOutcome(Answered(status, body)).error.Api?
            <==> StringField(body, "message").Some?
                 || (body.JArray? && |body.items| == 1 && body.items[0].JString?)
  {
  }

  /** Two sample answers: a `201` with a URL and number 1, and
      a `422` refusing a pull request that already exists. */
  lemma FetchExamples()
    ensures FetchOutcome(Answered(201, JObject(map["html_url" := JString("https://x/1"), "number" := JNumber(1)])))
            == Ok(ApiSuccess("https://x/1", 1))
    ensures FetchOutcome(Answered(422, JObject(map["message" := JString("already exists")])))
            == Err(Api("already exists"))
  {
    SuccessRoundTrip(ApiSuccess("https://x/1", 1), map[]);
    RefusalRoundTrip(422, ErrorBody("already exists"), "already exists");
  }

  /** The array form of a success decodes to the same answer as the object
      form. */
  lemma SuccessArrayForm(s: ApiSuccess)
    requires s.number < U32Bound
    ensures FetchOutcome(Answered(Created, JArray([JString(s.htmlUrl), JNumber(s.number)])))
            == FetchOutcome(Answered(Created, SuccessBody(s)))
            == Ok(s)
  {
    SuccessRoundTrip(s, map[]);
  }

  /** A number that a `u32` cannot hold is a decoding error, not a success. */
  lemma NumberTooLarge(body: Json, n: int)
    requires n < 0 || n >= U32Bound
    requires body.JObject? && "number" in body.fields && body.fields["number"] == JNumber(n)
    ensures FetchOutcome(Answered(Created, body)) == Err(Io(BadBody))
  {
  }
}
