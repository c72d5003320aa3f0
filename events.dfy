/**
 * The event normaliser: the webhook payload as optional fields, the canonical
 * event record, and the two handlers `handle_push` and `handle_pull_request`.
 * The wall clock is injected: `first` and `second` are the two successive
 * readings each handler takes.
 */
module Events {
  import opened Optional
  import opened Text
  import opened Branch
  import opened Timestamps

  /** `sender`, `pull_request.user` and `pull_request.merged_by`. */
  datatype Account = Account(login: Option<string>)

  /** `pusher`. */
  datatype Pusher = Pusher(name: Option<string>)

  /** `repository`: the short name (used by push) and `owner/name` (used by pull requests). */
  datatype Repository = Repository(name: Option<string>, fullName: Option<string>)

  /** `pull_request.base` and `pull_request.head`. */
  datatype Endpoint = Endpoint(gitRef: Option<string>)

  /** The `pull_request` object. */
  datatype PullRequestInfo = PullRequestInfo(
    merged: Option<bool>,
    base: Option<Endpoint>,
    head: Option<Endpoint>,
    mergedBy: Option<Account>,
    user: Option<Account>,
    mergedAt: Option<string>,
    createdAt: Option<string>)

  /** The fields of a webhook body the handlers read; JSON `null` reads as absent. */
  datatype Payload = Payload(
    gitRef: Option<string>,
    repository: Option<Repository>,
    pusher: Option<Pusher>,
    action: Option<string>,
    pullRequest: Option<PullRequestInfo>,
    sender: Option<Account>)

  /** What a missing or non-JSON body becomes (`... or {}`). */
  const EmptyPayload: Payload := Payload(None, None, None, None, None, None)

  datatype Action = Push | PullRequest | Merge

  /** The canonical event record; `fromBranch` is `None` for a push. */
  datatype Record = Record(
    action: Action,
    author: string,
    repo: string,
    fromBranch: Option<string>,
    toBranch: string,
    timestamp: Instant,
    createdAt: Instant)

  // Null-safe field access, one accessor per path the handlers read.

  function RepositoryName(p: Payload): Option<string> {
    if p.repository.Some? then p.repository.value.name else None
  }

  function RepositoryFullName(p: Payload): Option<string> {
    if p.repository.Some? then p.repository.value.fullName else None
  }

  function PusherName(p: Payload): Option<string> {
    if p.pusher.Some? then p.pusher.value.name else None
  }

  function Login(a: Option<Account>): Option<string> {
    if a.Some? then a.value.login else None
  }

  function SenderLogin(p: Payload): Option<string> {
    Login(p.sender)
  }

  function MergerLogin(p: Payload): Option<string> {
    if p.pullRequest.Some? then Login(p.pullRequest.value.mergedBy) else None
  }

  function OpenerLogin(p: Payload): Option<string> {
    if p.pullRequest.Some? then Login(p.pullRequest.value.user) else None
  }

  function EndpointRef(e: Option<Endpoint>): Option<string> {
    if e.Some? then e.value.gitRef else None
  }

  function BaseRef(p: Payload): Option<string> {
    if p.pullRequest.Some? then EndpointRef(p.pullRequest.value.base) else None
  }

  function HeadRef(p: Payload): Option<string> {
    if p.pullRequest.Some? then EndpointRef(p.pullRequest.value.head) else None
  }

  function MergedAt(p: Payload): Option<string> {
    if p.pullRequest.Some? then p.pullRequest.value.mergedAt else None
  }

  function OpenedAt(p: Payload): Option<string> {
    if p.pullRequest.Some? then p.pullRequest.value.createdAt else None
  }

  /** `pr.get("merged", False)` is truthy. */
  predicate IsMerged(p: Payload) {
    p.pullRequest.Some? && p.pullRequest.value.merged == Some(true)
  }

  /** A present, non-empty string: Python truthiness of an optional string. */
  predicate Filled(o: Option<string>) {
    o.Some? && o.value != ""
  }

  /** The first filled candidate, else `fallback`: the chain `a or b or fallback`. */
  function FirstFilled(candidates: seq<Option<string>>, fallback: string): (r: string)
    ensures (forall i :: 0 <= i < |candidates| ==> !Filled(candidates[i])) ==> r == fallback
    ensures forall i ::
      (0 <= i < |candidates| && Filled(candidates[i]) && forall j :: 0 <= j < i ==> !Filled(candidates[j]))
      ==> r == candidates[i].value
    ensures fallback != "" ==> r != ""
    decreases |candidates|
  {
    if candidates == [] then fallback
    else if Filled(candidates[0]) then candidates[0].value
    else FirstFilled(candidates[1..], fallback)
  }

  /** `action == "closed" and merged`. */
  predicate IsMergeEvent(p: Payload) {
    p.action == Some("closed") && IsMerged(p)
  }

  /** `action == "opened" or action == "synchronize"`. */
  predicate IsSubmissionEvent(p: Payload) {
    p.action == Some("opened") || p.action == Some("synchronize")
  }

  /**
   * `handle_push`: always a record. Repository name and pusher name fall back
   * to "unknown-repo" and "unknown-user" only when absent; the branch is the
   * ref with every `refs/heads/` removed, "" when the ref is absent (there is
   * no "unknown" fallback here).
   */
  function HandlePush(p: Payload, first: Instant, second: Instant): (r: Record)
    ensures r.action == Push && r.fromBranch == None
    ensures PusherName(p).Some? ==> r.author == PusherName(p).value
    ensures PusherName(p).None? ==> r.author == "unknown-user"
    ensures RepositoryName(p).Some? ==> r.repo == RepositoryName(p).value
    ensures RepositoryName(p).None? ==> r.repo == "unknown-repo"
    ensures r.toBranch == ReplaceAll(p.gitRef.GetOr(""), HeadsPrefix, "")
    ensures p.gitRef.None? ==> r.toBranch == ""
    ensures p.gitRef.Some? && !Contains(p.gitRef.value, HeadsPrefix) ==> r.toBranch == p.gitRef.value
    ensures p.gitRef.Some? && StartsWith(p.gitRef.value, HeadsPrefix) ==> r.toBranch == RefToBranch(p.gitRef)
    ensures r.timestamp == first && r.createdAt == second
  {
    var gitRef := p.gitRef.GetOr("");
    ReplaceAllAbsent(gitRef, HeadsPrefix, "");
    Record(Push, PusherName(p).GetOr("unknown-user"), RepositoryName(p).GetOr("unknown-repo"),
           None, ReplaceAll(gitRef, HeadsPrefix, ""), first, second)
  }

  /**
   * `handle_pull_request`: a merge record for a closed and merged pull
   * request, a pull-request record for an opened or synchronised one, and
   * nothing for anything else (closed without merge, reopened, labelled, ...).
   */
  function HandlePullRequest(p: Payload, first: Instant, second: Instant): (r: Option<Record>)
    ensures r.Some? <==> IsMergeEvent(p) || IsSubmissionEvent(p)
    ensures r.Some? ==> (r.value.action == Merge <==> IsMergeEvent(p)) && r.value.action != Push
    ensures r.Some? && IsMergeEvent(p) ==>
      r.value.author == FirstFilled([MergerLogin(p), SenderLogin(p)], "Unknown")
      && r.value.timestamp == ParseGitHubTimestamp(MergedAt(p), first)
    ensures r.Some? && !IsMergeEvent(p) ==>
      r.value.author == FirstFilled([OpenerLogin(p), SenderLogin(p)], "Unknown")
      && r.value.timestamp == ParseGitHubTimestamp(OpenedAt(p), first)
    ensures r.Some? ==> r.value.author != ""
    ensures r.Some? ==> r.value.toBranch == RefToBranch(BaseRef(p)) && r.value.fromBranch == Some(RefToBranch(HeadRef(p)))
    ensures r.Some? && RepositoryFullName(p).Some? ==> r.value.repo == RepositoryFullName(p).value
    ensures r.Some? && RepositoryFullName(p).None? ==> r.value.repo == ""
    ensures r.Some? ==> r.value.createdAt == second
  {
    var toBranch := RefToBranch(Some(BaseRef(p).GetOr("")));
    var fromBranch := RefToBranch(Some(HeadRef(p).GetOr("")));
    var repo := RepositoryFullName(p).GetOr("");
    if IsMergeEvent(p) then
      var merger := FirstFilled([MergerLogin(p), SenderLogin(p)], "Unknown");
      var ts := if Filled(MergedAt(p)) then ParseGitHubTimestamp(MergedAt(p), first) else first;
      Some(Record(Merge, merger, repo, Some(fromBranch), toBranch, ts, second))
    else if IsSubmissionEvent(p) then
      var author := FirstFilled([OpenerLogin(p), SenderLogin(p)], "Unknown");
      Some(Record(PullRequest, author, repo, Some(fromBranch), toBranch, ParseGitHubTimestamp(OpenedAt(p), first), second))
    else None
  }

  /** The handler chosen by the `X-GitHub-Event` header; other event types give no record. */
  function Normalize(event: string, p: Payload, first: Instant, second: Instant): (r: Option<Record>)
    ensures event == "push" ==> r.Some? && r.value.action == Push
    ensures event == "pull_request" ==> (r.Some? <==> IsMergeEvent(p) || IsSubmissionEvent(p))
    ensures event != "push" && event != "pull_request" ==> r.None?
    ensures r.Some? ==> r.value.createdAt == second
  {
    if event == "push" then Some(HandlePush(p, first, second))
    else if event == "pull_request" then HandlePullRequest(p, first, second)
    else None
  }

  /** A push ref under `refs/heads/` whose remainder has no further `refs/heads/` names that remainder. */
  lemma PushBranchIsRemainder(p: Payload, name: string, first: Instant, second: Instant)
    requires p.gitRef == Some(HeadsPrefix + name) && !Contains(name, HeadsPrefix)
    ensures HandlePush(p, first, second).toBranch == name
  {
    assert StartsWith(HeadsPrefix + name, HeadsPrefix);
    StripsPrefix(name);
  }

  /**
   * Push and the resolver agree on every non-empty ref under `refs/heads/` or
   * free of that substring; they differ on an absent ref ("" against "unknown").
   */
  lemma PushBranchAgreesWithResolver(p: Payload, first: Instant, second: Instant)
    requires p.gitRef.Some? && p.gitRef.value != ""
    requires StartsWith(p.gitRef.value, HeadsPrefix) || !Contains(p.gitRef.value, HeadsPrefix)
    ensures HandlePush(p, first, second).toBranch == RefToBranch(p.gitRef)
  {
    if !StartsWith(p.gitRef.value, HeadsPrefix) {
      assert HandlePush(p, first, second).toBranch == p.gitRef.value;
    }
  }

  /**
   * Where push and the resolver part: a ref with `refs/heads/` after its start.
   * Push removes it anyway (`x/refs/heads/y` gives `x/y`); the resolver keeps the ref whole.
   */
  lemma PushBranchDiffersFromResolver(first: Instant, second: Instant)
    ensures var p := EmptyPayload.(gitRef := Some("x/refs/heads/y"));
      && HandlePush(p, first, second).toBranch == "x/y"
      && RefToBranch(p.gitRef) == "x/refs/heads/y"
  {
    var g := "x/refs/heads/y";
    assert g[..|HeadsPrefix|][0] == 'x' != HeadsPrefix[0];
    assert g[1..][..|HeadsPrefix|][0] == '/' != HeadsPrefix[0];
    assert g[1..][1..] == HeadsPrefix + "y";
    ReplaceAllLeading(HeadsPrefix, "y", "");
    assert ReplaceAll("y", HeadsPrefix, "") == "y";
    assert ReplaceAll(g, HeadsPrefix, "") == "x/y";
  }

  /** A non-empty merger login is always the author of a merge record. */
  lemma MergerWins(p: Payload, first: Instant, second: Instant)
    requires IsMergeEvent(p) && Filled(MergerLogin(p))
    ensures HandlePullRequest(p, first, second).Some?
    ensures HandlePullRequest(p, first, second).value.author == MergerLogin(p).value
  {
    var cs := [MergerLogin(p), SenderLogin(p)];
    assert Filled(cs[0]);
  }

  /** With an empty merger login the sender is used, and "Unknown" when that is empty too. */
  lemma MergeAuthorFallback(p: Payload, first: Instant, second: Instant)
    requires IsMergeEvent(p) && !Filled(MergerLogin(p))
    ensures Filled(SenderLogin(p)) ==> HandlePullRequest(p, first, second).value.author == SenderLogin(p).value
    ensures !Filled(SenderLogin(p)) ==> HandlePullRequest(p, first, second).value.author == "Unknown"
  {
    var cs := [MergerLogin(p), SenderLogin(p)];
    assert !Filled(cs[0]) && cs[1] == SenderLogin(p);
  }

  /** A closed pull request that was not merged (false or missing) gives no record. */
  lemma ClosedUnmergedIgnored(p: Payload, first: Instant, second: Instant)
    requires p.action == Some("closed") && !IsMerged(p)
    ensures HandlePullRequest(p, first, second) == None
  {
  }

  /** An empty body still yields a push record, with every default in place. */
  lemma EmptyPushDefaults(first: Instant, second: Instant)
    ensures Normalize("push", EmptyPayload, first, second)
      == Some(Record(Push, "unknown-user", "unknown-repo", None, "", first, second))
  {
  }

  /** An empty body gives no pull-request record (there is no `action`). */
  lemma EmptyPullRequestIgnored(first: Instant, second: Instant)
    ensures Normalize("pull_request", EmptyPayload, first, second) == None
  {
  }

  /** A push of `refs/heads/main` to `repo1` by alice. */
  lemma PushScenario(first: Instant, second: Instant)
    ensures HandlePush(Payload(Some("refs/heads/main"), Some(Repository(Some("repo1"), None)),
                               Some(Pusher(Some("alice"))), None, None, None), first, second)
      == Record(Push, "alice", "repo1", None, "main", first, second)
  {
    assert "refs/heads/main" == HeadsPrefix + "main";
    PushBranchIsRemainder(Payload(Some("refs/heads/main"), Some(Repository(Some("repo1"), None)),
                                  Some(Pusher(Some("alice"))), None, None, None), "main", first, second);
  }

  /** bob opens a pull request from `feature` into `main`. */
  lemma OpenedScenario(first: Instant, second: Instant)
    ensures
      var pr := PullRequestInfo(None, Some(Endpoint(Some("refs/heads/main"))), Some(Endpoint(Some("refs/heads/feature"))),
                                None, Some(Account(Some("bob"))), None, None);
      var r := HandlePullRequest(Payload(None, None, None, Some("opened"), Some(pr), None), first, second);
      r.Some? && r.value.action == PullRequest && r.value.author == "bob"
      && r.value.toBranch == "main" && r.value.fromBranch == Some("feature")
  {
    assert "refs/heads/main" == HeadsPrefix + "main";
    assert "refs/heads/feature" == HeadsPrefix + "feature";
    StripsPrefix("main");
    StripsPrefix("feature");
    assert [Some("bob"), None][0] == Some("bob");
  }

  /** carol merges a pull request. */
  lemma MergedScenario(first: Instant, second: Instant)
    ensures
      var pr := PullRequestInfo(Some(true), None, None, Some(Account(Some("carol"))), None, None, None);
      var r := HandlePullRequest(Payload(None, None, None, Some("closed"), Some(pr), None), first, second);
      r.Some? && r.value.action == Merge && r.value.author == "carol" && r.value.timestamp == first
  {
    assert [Some("carol"), None][0] == Some("carol");
  }
}
