/**
 * The repository list of the dashboard (`ReposList`): the repositories
 * connected to the organisation, three per-repository maps (a connect in
 * flight, the last connect error, a re-queue in flight) and the
 * disconnect dialog. Handlers update the state optimistically around
 * backend calls, whose outcomes are parameters here.
 */
module Repos {
  import opened Js

  datatype JobStatus = Pending | Processing | Completed | Failed | Cancelled

  /** The latest ingestion job of a connected repository. */
  datatype Job = Job(id: Option<int>, status: JobStatus, jobType: string, createdAt: string)

  /** `id` is the backend's own id, `githubRepoId` the GitHub repository id. */
  datatype ConnectedRepo = ConnectedRepo(id: int, githubRepoId: int, fullName: string, latestJob: Option<Job>)

  /** A repository of a GitHub App installation, as listed by GitHub. */
  datatype Repo = Repo(id: int, fullName: string, defaultBranch: string)

  /** Why a backend call threw: an HTTP 409 from the backend, or anything else with its `message` (`None` when the thrown value is not an `Error`). */
  datatype CallError = Conflict409 | Fail(message: Option<string>)

  /** The outcome of an awaited backend call. */
  datatype Outcome<T> = Ok(value: T) | Err(error: CallError)

  /** The repository chosen in the disconnect dialog. */
  datatype Target = Target(id: int, fullName: string)

  /** What `getRepoStatus` reports for a connected repository: its latest job's status, or `"connected"`. */
  datatype Status = OfJob(job: JobStatus) | Connected

  const ConnectFailedMessage := "Failed to connect & queue repository"
  const QueueFailedMessage := "Failed to queue scan. Please try again."
  const DisconnectFailedMessage := "Failed to disconnect repository. Please try again."

  // ---------------------------------------------------------------------
  // Queries
  // ---------------------------------------------------------------------

  /** `connectedRepos.find(r => r.github_repo_id === g)`, as the index found. */
  function FindIndex(repos: seq<ConnectedRepo>, g: int): (r: Option<nat>)
    ensures r.Some? ==> r.value < |repos| && repos[r.value].githubRepoId == g
    ensures r.Some? ==> forall j :: 0 <= j < r.value ==> repos[j].githubRepoId != g
    ensures r.None? ==> forall j :: 0 <= j < |repos| ==> repos[j].githubRepoId != g
  {
    if repos == [] then None
    else if repos[0].githubRepoId == g then Some(0)
    else match FindIndex(repos[1..], g)
      case None => None
      case Some(i) => Some(i + 1)
  }

  /** Some connected repository has GitHub id `g`. */
  predicate IsListed(repos: seq<ConnectedRepo>, g: int) {
    FindIndex(repos, g).Some?
  }

  /** `latest_job?.status || "connected"`: every status name is a non-empty string. */
  function StatusOf(r: ConnectedRepo): Status {
    match r.latestJob
    case Some(job) => OfJob(job.status)
    case None => Connected
  }

  /** `getRepoStatus(g)`: `null` when no connected repository has GitHub id `g`. */
  function RepoStatus(repos: seq<ConnectedRepo>, g: int): (s: Option<Status>)
    ensures s.None? <==> forall j :: 0 <= j < |repos| ==> repos[j].githubRepoId != g
  {
    match FindIndex(repos, g)
    case None => None
    case Some(i) => Some(StatusOf(repos[i]))
  }

  /** The status reported for a GitHub id is that of the first connected repository with that id. */
  lemma RepoStatusFirst(repos: seq<ConnectedRepo>, i: nat)
    requires i < |repos| && forall j :: 0 <= j < i ==> repos[j].githubRepoId != repos[i].githubRepoId
    ensures RepoStatus(repos, repos[i].githubRepoId) == Some(StatusOf(repos[i]))
  {
    var k := FindIndex(repos, repos[i].githubRepoId).value;
    assert k == i by {
      assert !(k < i) && !(i < k);
    }
  }

  /** `StatusBadge`: the label shown for a status; anything without a case of its own shows "Connected". */
  function Badge(s: Status): string {
    match s
    case OfJob(Pending) => "Queued"
    case OfJob(Processing) => "Processing"
    case OfJob(Completed) => "Ready"
    case OfJob(Failed) => "Failed"
    case _ => "Connected"
  }

  /** A cancelled job shows the same badge as a repository without a job. */
  lemma BadgeConnected(s: Status)
    ensures Badge(s) == "Connected" <==> s == Connected || s == OfJob(Cancelled)
  {
  }

  /** A repository whose latest job is still queued or running. */
  predicate Transient(r: ConnectedRepo) {
    r.latestJob.Some? && (r.latestJob.value.status == Pending || r.latestJob.value.status == Processing)
  }

  /** `hasTransientRepoState`: `connectedRepos.some(...)`. */
  function AnyTransient(repos: seq<ConnectedRepo>): (b: bool)
    ensures b <==> exists i :: 0 <= i < |repos| && Transient(repos[i])
  {
    if repos == [] then false
    else
      var rest := AnyTransient(repos[1..]);
      assert rest <==> exists i :: 1 <= i < |repos| && Transient(repos[i]) by {
        if rest {
          var i :| 0 <= i < |repos[1..]| && Transient(repos[1..][i]);
          assert Transient(repos[i + 1]);
        }
      }
      Transient(repos[0]) || rest
  }

  /** The flag of `k` in a `Record<number, boolean>`; a missing key reads as `undefined`, which is falsy. */
  predicate Flag(m: map<int, bool>, k: int) {
    k in m && m[k]
  }

  /** `Object.values(connectingMap).some(Boolean)`. */
  predicate AnyFlag(m: map<int, bool>) {
    exists k :: k in m && m[k]
  }

  /**
   * `shouldPoll`: some connected repository has a queued or running job,
   * or some connect is in flight.
   */
  function ShouldPoll(repos: seq<ConnectedRepo>, connecting: map<int, bool>): (b: bool)
    ensures b <==> (exists i :: 0 <= i < |repos| && Transient(repos[i])) || (exists k :: k in connecting && connecting[k])
  {
    AnyTransient(repos) || AnyFlag(connecting)
  }

  // ---------------------------------------------------------------------
  // Pure updates
  // ---------------------------------------------------------------------

  /** What the clearing effect makes of the connecting flags: a raised flag whose repository is now listed is lowered. */
  function Cleared(prev: map<int, bool>, repos: seq<ConnectedRepo>): map<int, bool> {
    map k | k in prev :: if prev[k] && IsListed(repos, k) then false else prev[k]
  }

  /** A non-empty set of keys has a member. */
  lemma HasKey(keys: set<int>)
    requires keys != {}
    ensures exists k :: k in keys
  {
    if forall x :: x !in keys {
      assert false;
    }
  }

  /**
   * The `setConnectingMap` updater of the clearing effect: a loop over the
   * entries of `prev` that lowers every raised flag whose repository is now
   * listed. `changed` says whether it lowered any; when it did not, the
   * updater hands back `prev` itself.
   */
  method ClearConnectedFlags(prev: map<int, bool>, repos: seq<ConnectedRepo>)
    returns (result: map<int, bool>, changed: bool)
    ensures result == Cleared(prev, repos)
    ensures changed <==> exists k :: k in prev && prev[k] && IsListed(repos, k)
    ensures !changed ==> result == prev
  {
    changed := false;
    var next := prev;
    var entries := prev.Keys;
    while entries != {}
      invariant entries <= prev.Keys && next.Keys == prev.Keys
      invariant forall k :: k in prev && k !in entries ==> next[k] == Cleared(prev, repos)[k]
      invariant forall k :: k in entries ==> next[k] == prev[k]
      invariant changed <==> exists k :: k in prev && k !in entries && prev[k] && IsListed(repos, k)
      decreases |entries|
    {
      HasKey(entries);
      var k :| k in entries;
      if prev[k] && IsListed(repos, k) {
        next := next[k := false];
        changed := true;
      }
      entries := entries - {k};
    }
    var cleared := Cleared(prev, repos);
    assert next.Keys == cleared.Keys;
    assert forall k :: k in next ==> next[k] == cleared[k];
    assert next == cleared;
    if !changed {
      assert forall k :: k in prev ==> cleared[k] == prev[k];
      assert prev == cleared;
    }
    result := if changed then next else prev;
  }

  /** After the clearing effect, no raised flag belongs to a listed repository, and every other flag is kept. */
  lemma ClearedFlags(prev: map<int, bool>, repos: seq<ConnectedRepo>)
    ensures Cleared(prev, repos).Keys == prev.Keys
    ensures forall k :: Flag(Cleared(prev, repos), k) <==> Flag(prev, k) && !IsListed(repos, k)
  {
  }

  /** The optimistic entry for a repository just connected: a queued full scan, without a job id yet. */
  function PendingEntry(repoId: int, repo: Repo, nowIso: string): ConnectedRepo {
    ConnectedRepo(repoId, repo.id, repo.fullName, Some(Job(None, Pending, "full_scan", nowIso)))
  }

  /**
   * The optimistic `setConnectedRepos` of `handleConnect`: the pending
   * entry is appended unless a repository with that GitHub id is listed.
   */
  function InsertPending(prev: seq<ConnectedRepo>, repoId: int, repo: Repo, nowIso: string): (r: seq<ConnectedRepo>)
    ensures IsListed(r, repo.id)
    ensures |prev| <= |r| <= |prev| + 1 && r[..|prev|] == prev
    ensures |r| == |prev| + 1 <==> !IsListed(prev, repo.id)
    ensures |r| == |prev| + 1 ==> r[|prev|] == PendingEntry(repoId, repo, nowIso)
  {
    if IsListed(prev, repo.id) then prev
    else
      var r := prev + [PendingEntry(repoId, repo, nowIso)];
      assert FindIndex(r, repo.id).Some? by {
        assert r[|prev|].githubRepoId == repo.id;
      }
      r
  }

  /**
   * Right after the optimistic insert of a repository that was not listed,
   * its badge reads queued and the list polls.
   */
  lemma InsertPendingStatus(prev: seq<ConnectedRepo>, repoId: int, repo: Repo, nowIso: string, connecting: map<int, bool>)
    requires !IsListed(prev, repo.id)
    ensures RepoStatus(InsertPending(prev, repoId, repo, nowIso), repo.id) == Some(OfJob(Pending))
    ensures ShouldPoll(InsertPending(prev, repoId, repo, nowIso), connecting)
  {
    var r := InsertPending(prev, repoId, repo, nowIso);
    forall j | 0 <= j < |prev| ensures r[j].githubRepoId != repo.id {
      assert r[j] == prev[j];
    }
    RepoStatusFirst(r, |prev|);
    assert Transient(r[|prev|]);
  }

  /** No two connected repositories share a GitHub id. */
  predicate UniqueGithubIds(repos: seq<ConnectedRepo>) {
    forall i, j :: 0 <= i < j < |repos| ==> repos[i].githubRepoId != repos[j].githubRepoId
  }

  /** The optimistic insert never creates a duplicate. */
  lemma InsertPendingUnique(prev: seq<ConnectedRepo>, repoId: int, repo: Repo, nowIso: string)
    requires UniqueGithubIds(prev)
    ensures UniqueGithubIds(InsertPending(prev, repoId, repo, nowIso))
  {
    var r := InsertPending(prev, repoId, repo, nowIso);
    if !IsListed(prev, repo.id) {
      forall i, j | 0 <= i < j < |r| ensures r[i].githubRepoId != r[j].githubRepoId {
        if j == |prev| {
          assert r[i] == prev[i];
        } else {
          assert r[i] == prev[i] && r[j] == prev[j];
        }
      }
    }
  }

  /** `prev.filter(r => r.id !== id)`. */
  function WithoutId(repos: seq<ConnectedRepo>, id: int): (r: seq<ConnectedRepo>)
    ensures forall i :: 0 <= i < |r| ==> r[i].id != id
    ensures |r| <= |repos|
  {
    if repos == [] then []
    else WithoutId(repos[..|repos| - 1], id) + (if repos[|repos| - 1].id != id then [repos[|repos| - 1]] else [])
  }

  /** A successful disconnect keeps exactly the entries with another internal id. */
  lemma {:induction false} WithoutIdMembers(repos: seq<ConnectedRepo>, id: int)
    ensures forall x :: x in WithoutId(repos, id) <==> x in repos && x.id != id
    decreases |repos|
  {
    if repos != [] {
      var init := repos[..|repos| - 1];
      WithoutIdMembers(init, id);
      assert repos == init + [repos[|repos| - 1]];
    }
  }

  /** Filtering works piece by piece: what is kept stays in its order. */
  lemma {:induction false} WithoutIdAppend(a: seq<ConnectedRepo>, b: seq<ConnectedRepo>, id: int)
    ensures WithoutId(a + b, id) == WithoutId(a, id) + WithoutId(b, id)
    decreases |b|
  {
    if b == [] {
      assert a + b == a;
    } else {
      var init := b[..|b| - 1];
      WithoutIdAppend(a, init, id);
      assert (a + b)[..|a + b| - 1] == a + init;
      assert b[|b| - 1] == (a + b)[|a + b| - 1];
    }
  }

  /** With no entry carrying that id, filtering changes nothing. */
  lemma {:induction false} WithoutIdAbsent(repos: seq<ConnectedRepo>, id: int)
    requires forall i :: 0 <= i < |repos| ==> repos[i].id != id
    ensures WithoutId(repos, id) == repos
    decreases |repos|
  {
    if repos != [] {
      WithoutIdAbsent(repos[..|repos| - 1], id);
    }
  }

  /** `fetchRepos`: `if (res.repositories) setConnectedRepos(res.repositories)`; a failed fetch leaves the list. */
  function Fetched(repos: seq<ConnectedRepo>, fetch: Outcome<Option<seq<ConnectedRepo>>>): seq<ConnectedRepo> {
    if fetch.Ok? && fetch.value.Some? then fetch.value.value else repos
  }

  /** What the `try` of a handler throws: the first call that fails, if any. */
  function Thrown<T, U>(first: Outcome<T>, second: Outcome<U>): Option<CallError> {
    if first.Err? then Some(first.error) else if second.Err? then Some(second.error) else None
  }

  /** The message recorded for a failure: the `Error`'s message, or the default. */
  function MessageOf(e: CallError, default: string): string {
    match e
    case Conflict409 => default
    case Fail(m) => m.GetOr(default)
  }

  // ---------------------------------------------------------------------
  // The component
  // ---------------------------------------------------------------------

  class ReposList {
    var connectedRepos: seq<ConnectedRepo>
    var connecting: map<int, bool>
    var connectError: map<int, string>
    var retryQueue: map<int, bool>
    var disconnectModalOpen: bool
    var repoToDisconnect: Option<Target>
    var disconnecting: bool

    constructor (initial: seq<ConnectedRepo>)
      ensures connectedRepos == initial && connecting == map[] && connectError == map[] && retryQueue == map[]
      ensures !disconnectModalOpen && repoToDisconnect == None && !disconnecting
    {
      connectedRepos := initial;
      connecting := map[];
      connectError := map[];
      retryQueue := map[];
      disconnectModalOpen := false;
      repoToDisconnect := None;
      disconnecting := false;
    }

    /** The effect run when the organisation or the initial list changes: start over from the new list. */
    method Sync(initial: seq<ConnectedRepo>)
      modifies this
      ensures connectedRepos == initial && connecting == map[] && connectError == map[] && retryQueue == map[]
      ensures disconnectModalOpen == old(disconnectModalOpen) && repoToDisconnect == old(repoToDisconnect)
      ensures disconnecting == old(disconnecting)
    {
      connectedRepos := initial;
      connecting := map[];
      connectError := map[];
      retryQueue := map[];
    }

    /** The effect run when `connectedRepos` changes: lower the flags of the repositories that now appear. */
    method ClearFlags()
      modifies this
      ensures connecting == Cleared(old(connecting), connectedRepos)
      ensures connectedRepos == old(connectedRepos) && connectError == old(connectError) && retryQueue == old(retryQueue)
      ensures disconnectModalOpen == old(disconnectModalOpen) && repoToDisconnect == old(repoToDisconnect)
      ensures disconnecting == old(disconnecting)
    {
      var next, changed := ClearConnectedFlags(connecting, connectedRepos);
      connecting := next;
    }

    /**
     * `handleConnect(installId, repo)`. `connect` is the outcome of the
     * connect call, `fetched` that of the refetch after it, `refetched` that
     * of the refetch after a 409. Nothing happens while a connect of the
     * repository is in flight. Otherwise the flag is raised and the old error
     * dropped; on success the pending entry is inserted and the list refetched;
     * a 409 counts as success (refetch, flag kept up); any other failure
     * records its message and lowers the flag.
     */
    method HandleConnect(repo: Repo, connect: Outcome<int>, fetched: Outcome<Option<seq<ConnectedRepo>>>,
                         refetched: Outcome<Option<seq<ConnectedRepo>>>, nowIso: string)
      modifies this
      ensures Flag(old(connecting), repo.id) ==>
        connectedRepos == old(connectedRepos) && connecting == old(connecting) && connectError == old(connectError)
      ensures !Flag(old(connecting), repo.id) ==>
        var tried := if connect.Ok? then Fetched(InsertPending(old(connectedRepos), connect.value, repo, nowIso), fetched)
                     else old(connectedRepos);
        match Thrown(connect, fetched)
        case None =>
          connectedRepos == tried && connecting == old(connecting)[repo.id := true]
          && connectError == old(connectError) - {repo.id}
        case Some(Conflict409) =>
          connectedRepos == Fetched(tried, refetched) && connecting == old(connecting)[repo.id := true]
          && connectError == old(connectError) - {repo.id}
        case Some(Fail(m)) =>
          connectedRepos == tried && connecting == old(connecting)[repo.id := false]
          && connectError == (old(connectError) - {repo.id})[repo.id := m.GetOr(ConnectFailedMessage)]
      ensures retryQueue == old(retryQueue) && disconnectModalOpen == old(disconnectModalOpen)
      ensures repoToDisconnect == old(repoToDisconnect) && disconnecting == old(disconnecting)
    {
      if !Flag(connecting, repo.id) {
        connecting := connecting[repo.id := true];
        connectError := connectError - {repo.id};
        if connect.Ok? {
          connectedRepos := InsertPending(connectedRepos, connect.value, repo, nowIso);
          connectedRepos := Fetched(connectedRepos, fetched);
        }
        match Thrown(connect, fetched) {
          case None =>
          case Some(Conflict409) =>
            connectedRepos := Fetched(connectedRepos, refetched);
          case Some(Fail(m)) =>
            connectError := connectError[repo.id := MessageOf(Fail(m), ConnectFailedMessage)];
            connecting := connecting[repo.id := false];
        }
      }
    }

    /**
     * `handleRetryQueue(id)`: nothing while a re-queue of `id` is in
     * flight; otherwise the flag is raised, the queue call made and the list
     * refetched (again after a 409), and the flag lowered whatever happened.
     * Returns the message of the `alert` shown for a failure other than a 409.
     */
    method HandleRetryQueue(id: int, queue: Outcome<()>, fetched: Outcome<Option<seq<ConnectedRepo>>>,
                            refetched: Outcome<Option<seq<ConnectedRepo>>>)
      returns (alert: Option<string>)
      modifies this
      ensures Flag(old(retryQueue), id) ==>
        retryQueue == old(retryQueue) && connectedRepos == old(connectedRepos) && alert == None
      ensures !Flag(old(retryQueue), id) ==>
        var tried := if queue.Ok? then Fetched(old(connectedRepos), fetched) else old(connectedRepos);
        && retryQueue == old(retryQueue)[id := false]
        && connectedRepos == (if Thrown(queue, fetched) == Some(Conflict409) then Fetched(tried, refetched) else tried)
        && alert == (match Thrown(queue, fetched)
                     case Some(Fail(m)) => Some(m.GetOr(QueueFailedMessage))
                     case _ => None)
      ensures connecting == old(connecting) && connectError == old(connectError)
      ensures disconnectModalOpen == old(disconnectModalOpen) && repoToDisconnect == old(repoToDisconnect)
      ensures disconnecting == old(disconnecting)
    {
      alert := None;
      if !Flag(retryQueue, id) {
        retryQueue := retryQueue[id := true];
        if queue.Ok? {
          connectedRepos := Fetched(connectedRepos, fetched);
        }
        match Thrown(queue, fetched) {
          case None =>
          case Some(Conflict409) =>
            connectedRepos := Fetched(connectedRepos, refetched);
          case Some(Fail(m)) =>
            alert := Some(MessageOf(Fail(m), QueueFailedMessage));
        }
        retryQueue := retryQueue[id := false];
      }
    }

    /** `handleDisconnectClick(repo)`: remember the repository and open the dialog. */
    method HandleDisconnectClick(repo: ConnectedRepo)
      modifies this
      ensures repoToDisconnect == Some(Target(repo.id, repo.fullName)) && disconnectModalOpen
      ensures connectedRepos == old(connectedRepos) && disconnecting == old(disconnecting)
      ensures connecting == old(connecting) && connectError == old(connectError) && retryQueue == old(retryQueue)
    {
      repoToDisconnect := Some(Target(repo.id, repo.fullName));
      disconnectModalOpen := true;
    }

    /** The dialog's Cancel button. */
    method CancelDisconnect()
      modifies this
      ensures repoToDisconnect == None && !disconnectModalOpen
      ensures connectedRepos == old(connectedRepos) && disconnecting == old(disconnecting)
      ensures connecting == old(connecting) && connectError == old(connectError) && retryQueue == old(retryQueue)
    {
      disconnectModalOpen := false;
      repoToDisconnect := None;
    }

    /**
     * `handleDisconnectConfirm()` with the outcome of the disconnect call:
     * on success the entries with the chosen internal id are removed and the
     * dialog closed; on failure the list stays and an alert is shown.
     * Either way `disconnecting` is off afterwards.
     */
    method HandleDisconnectConfirm(result: Outcome<()>) returns (alert: Option<string>)
      modifies this
      ensures connecting == old(connecting) && connectError == old(connectError) && retryQueue == old(retryQueue)
      ensures old(repoToDisconnect).None? ==>
        connectedRepos == old(connectedRepos) && repoToDisconnect == None
        && disconnectModalOpen == old(disconnectModalOpen) && disconnecting == old(disconnecting) && alert == None
      ensures old(repoToDisconnect).Some? ==> !disconnecting
      ensures old(repoToDisconnect).Some? && result.Ok? ==>
        connectedRepos == WithoutId(old(connectedRepos), old(repoToDisconnect).value.id)
        && !disconnectModalOpen && repoToDisconnect == None && alert == None
      ensures old(repoToDisconnect).Some? && result.Err? ==>
        connectedRepos == old(connectedRepos) && repoToDisconnect == old(repoToDisconnect)
        && disconnectModalOpen == old(disconnectModalOpen) && alert == Some(DisconnectFailedMessage)
    {
      alert := None;
      match repoToDisconnect {
        case None =>
        case Some(target) =>
          disconnecting := true;
          if result.Ok? {
            connectedRepos := WithoutId(connectedRepos, target.id);
            disconnectModalOpen := false;
            repoToDisconnect := None;
          } else {
            alert := Some(DisconnectFailedMessage);
          }
          disconnecting := false;
      }
    }
  }
}
