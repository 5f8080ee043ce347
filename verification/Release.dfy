/** The release publisher: a run that may stop between any two remote changes, and be run again. */
module Release {
  import opened Text

  /** An asset as the remote lists it; `digest` is that of its bytes. */
  datatype Asset = Asset(name: string, uploaded: bool, size: nat, digest: string)

  datatype Draft = Draft(id: nat, draft: bool, immutable: bool, assets: seq<Asset>)

  /** What the remote holds for one version: the commit its tag resolves to, and the releases that claim the tag. */
  datatype Remote = Remote(tag: Option<string>, releases: seq<Draft>, main: string, locks: bool, nextId: nat)

  /** The commit to release, and the local files in upload order. */
  datatype Job = Job(sha: string, files: seq<Asset>)

  datatype Outcome = Done | Refused | Stopped

  /** The local files are complete, and named apart. */
  predicate Sane(job: Job) {
    && (forall i | 0 <= i < |job.files| :: job.files[i].uploaded)
    && (forall i, j | 0 <= i < j < |job.files| :: job.files[i].name != job.files[j].name)
  }

  function Names(assets: seq<Asset>): set<string> { set i | 0 <= i < |assets| :: assets[i].name }

  /** Every listed asset is one of the local files, byte for byte, and listed once. */
  predicate Matching(assets: seq<Asset>, files: seq<Asset>) {
    && (forall i | 0 <= i < |assets| :: assets[i] in files)
    && (forall i, j | 0 <= i < j < |assets| :: assets[i].name != assets[j].name)
  }

  predicate Complete(assets: seq<Asset>, files: seq<Asset>) { Matching(assets, files) && Names(assets) == Names(files) }

  // ---------------------------------------------------------------- one run

  datatype Verdict = Refuse | Settled | Go(present: set<string>)

  /** What the read-only checks before the first change decide. */
  function Verify(r: Remote, job: Job): Verdict {
    if r.tag.Some? && r.tag.value != job.sha then Refuse
    else if exists i :: 0 <= i < |r.releases| && !r.releases[i].draft then
      var i := FirstPublished(r.releases);
      if r.tag.None? || !r.releases[i].immutable || !Complete(r.releases[i].assets, job.files) then Refuse else Settled
    else if |r.releases| > 1 then Refuse
    else if r.releases == [] then (if r.main == job.sha then Go({}) else Refuse)
    else if r.tag.None? || !Matching(r.releases[0].assets, job.files) || r.main != job.sha then Refuse
    else Go(Names(r.releases[0].assets))
  }

  function FirstPublished(releases: seq<Draft>): (i: nat)
    requires exists i :: 0 <= i < |releases| && !releases[i].draft
    ensures i < |releases| && !releases[i].draft
  {
    if !releases[0].draft then 0
    else
      assert exists i :: 0 <= i < |releases[1..]| && !releases[1..][i].draft by {
        var i :| 0 <= i < |releases| && !releases[i].draft;
        assert releases[1..][i - 1] == releases[i];
      }
      1 + FirstPublished(releases[1..])
  }

  /** Creating the tag takes two commands: the tag object, which nothing shows, and the reference to it. */
  function Tagged(r: Remote, job: Job, budget: nat): (Remote, Option<nat>) {
    if r.tag.Some? then (r, Some(budget))
    else if budget < 2 then (r, None)
    else (r.(tag := Some(job.sha)), Some(budget - 2))
  }

  function Drafted(r: Remote, budget: nat): (Remote, Option<nat>) {
    if r.releases != [] then (r, Some(budget))
    else if budget == 0 then (r, None)
    else (r.(releases := [Draft(r.nextId, true, false, [])], nextId := r.nextId + 1), Some(budget - 1))
  }

  function Missing(files: seq<Asset>, present: set<string>): seq<Asset> {
    if files == [] then []
    else if files[0].name in present then Missing(files[1..], present)
    else [files[0]] + Missing(files[1..], present)
  }

  function WithAssets(r: Remote, more: seq<Asset>): (t: Remote)
    requires r.releases != []
    ensures |t.releases| == |r.releases|
  {
    r.(releases := r.releases[0 := r.releases[0].(assets := r.releases[0].assets + more)])
  }

  function Uploaded(r: Remote, files: seq<Asset>, budget: nat): (Remote, Option<nat>)
    requires r.releases != []
  {
    if |files| <= budget then (WithAssets(r, files), Some(budget - |files|)) else (WithAssets(r, files[..budget]), None)
  }

  /** The last checks, and the one command that publishes. */
  function Closed(r: Remote, job: Job, budget: nat): (Remote, Outcome)
    requires r.releases != []
  {
    if !r.releases[0].draft || !Complete(r.releases[0].assets, job.files) || r.tag != Some(job.sha)
        || r.main != job.sha then (r, Refused)
    else if budget == 0 then (r, Stopped)
    else
      var t := r.(releases := r.releases[0 := r.releases[0].(draft := false, immutable := r.locks)]);
      (t, if r.locks then Done else Refused)
  }

  function Acted(r: Remote, job: Job, present: set<string>, budget: nat): (Remote, Outcome) {
    var (tagged, b1) := Tagged(r, job, budget);
    if b1.None? then (tagged, Stopped)
    else
      var (drafted, b2) := Drafted(tagged, b1.value);
      if b2.None? then (drafted, Stopped)
      else
        var (uploaded, b3) := Uploaded(drafted, Missing(job.files, present), b2.value);
        if b3.None? then (uploaded, Stopped) else Closed(uploaded, job, b3.value)
  }

  /** A run that may make `budget` remote changes before it is stopped. */
  function Published(r: Remote, job: Job, budget: nat): (Remote, Outcome) {
    match Verify(r, job)
    case Refuse => (r, Refused)
    case Settled => (r, Done)
    case Go(present) => Acted(r, job, present, budget)
  }

  /** Enough changes for any run to come to its end. */
  function Full(job: Job): nat { |job.files| + 4 }

  // ---------------------------------------------------------------- the publisher, step by step

  class Publisher {
    var tag: Option<string>
    var releases: seq<Draft>
    var main: string
    var locks: bool
    var nextId: nat

    function Contents(): Remote
      reads this
    {
      Remote(tag, releases, main, locks, nextId)
    }

    constructor (r: Remote)
      ensures Contents() == r
    {
      tag, releases, main, locks, nextId := r.tag, r.releases, r.main, r.locks, r.nextId;
    }

    /** The names found, when every listed asset is an expected one, once, and byte for byte. */
    method VerifyAssets(assets: seq<Asset>, files: seq<Asset>) returns (found: Option<set<string>>)
      requires forall i | 0 <= i < |files| :: files[i].uploaded
      requires forall i, j | 0 <= i < j < |files| :: files[i].name != files[j].name
      ensures found == if Matching(assets, files) then Some(Names(assets)) else None
    {
      var names: set<string> := {};
      for k := 0 to |assets|
        invariant names == Names(assets[..k])
        invariant Matching(assets[..k], files)
      {
        var asset := assets[k];
        assert assets[..k + 1] == assets[..k] + [asset];
        var i := 0;
        while i < |files| && files[i].name != asset.name
          invariant 0 <= i <= |files| && forall j | 0 <= j < i :: files[j].name != asset.name
        {
          i := i + 1;
        }
        if i == |files| || asset.name in names || !asset.uploaded || asset.size != files[i].size
            || asset.digest != files[i].digest {
          NotMatching(assets, files, k, i);
          return None;
        }
        assert asset == files[i];
        NamesAppend(assets[..k], asset);
        MatchingAppend(assets[..k], asset, files);
        names := names + {asset.name};
      }
      assert assets[..|assets|] == assets;
      return Some(names);
    }

    /** The read-only checks before the first change. */
    method Inspect(job: Job) returns (verdict: Verdict)
      requires Sane(job)
      ensures verdict == Verify(Contents(), job)
    {
      hide Matching, Names, Complete, FirstPublished;
      if tag.Some? && tag.value != job.sha {
        return Refuse;
      }
      if exists i :: 0 <= i < |releases| && !releases[i].draft {
        var release := releases[FirstPublished(releases)];
        if tag.None? || !release.immutable {
          return Refuse;
        }
        var found := VerifyAssets(release.assets, job.files);
        CompleteIs(release.assets, job.files);
        return if found == Some(Names(job.files)) then Settled else Refuse;
      }
      if |releases| > 1 {
        return Refuse;
      }
      var present: set<string> := {};
      if |releases| == 1 {
        if tag.None? {
          return Refuse;
        }
        var found := VerifyAssets(releases[0].assets, job.files);
        if found.None? {
          return Refuse;
        }
        present := found.value;
      }
      return if main == job.sha then Go(present) else Refuse;
    }

    /** Uploads file by file until the budget is used up. */
    method Upload(files: seq<Asset>, budget: nat) returns (left: Option<nat>)
      requires releases != []
      modifies this`releases
      ensures (Contents(), left) == Uploaded(old(Contents()), files, budget) && releases != []
    {
      WithNothing(Contents());
      assert files[..0] == [];
      for k := 0 to |files|
        invariant k <= budget && releases != [] && Contents() == WithAssets(old(Contents()), files[..k])
      {
        if k == budget {
          return None;
        }
        WithAssetsAppend(old(Contents()), files, k);
        releases := releases[0 := releases[0].(assets := releases[0].assets + [files[k]])];
      }
      assert files[..|files|] == files;
      return Some(budget - |files|);
    }

    /** The last checks, and the one command that publishes. */
    method Close(job: Job, budget: nat) returns (outcome: Outcome)
      requires Sane(job) && releases != []
      modifies this`releases
      ensures (Contents(), outcome) == Closed(old(Contents()), job, budget)
    {
      hide Matching, Names, Complete;
      var found := VerifyAssets(releases[0].assets, job.files);
      CompleteIs(releases[0].assets, job.files);
      if !releases[0].draft || found != Some(Names(job.files)) || tag != Some(job.sha) || main != job.sha {
        return Refused;
      }
      if budget == 0 {
        return Stopped;
      }
      releases := releases[0 := releases[0].(draft := false, immutable := locks)];
      return if locks then Done else Refused;
    }

    method Publish(job: Job, budget: nat) returns (outcome: Outcome)
      requires Sane(job)
      modifies this
      ensures (Contents(), outcome) == Published(old(Contents()), job, budget)
    {
      hide Verify, Uploaded, Closed, Missing, WithAssets;
      var verdict := Inspect(job);
      if verdict.Refuse? {
        return Refused;
      }
      if verdict.Settled? {
        return Done;
      }
      var left := budget;
      if tag.None? {
        if left < 2 {
          return Stopped;
        }
        tag := Some(job.sha);
        left := left - 2;
      }
      if |releases| == 0 {
        if left == 0 {
          return Stopped;
        }
        releases := [Draft(nextId, true, false, [])];
        nextId := nextId + 1;
        left := left - 1;
      }
      var rest := Upload(Missing(job.files, verdict.present), left);
      if rest.None? {
        return Stopped;
      }
      outcome := Close(job, rest.value);
    }
  }

  lemma NamesAppend(assets: seq<Asset>, a: Asset)
    ensures Names(assets + [a]) == Names(assets) + {a.name}
  {
    var all := assets + [a];
    assert all[|assets|] == a;
    forall n | n in Names(assets) ensures n in Names(all) {
      var i :| 0 <= i < |assets| && assets[i].name == n;
      assert all[i].name == n;
    }
  }

  lemma MatchingAppend(assets: seq<Asset>, a: Asset, files: seq<Asset>)
    requires Matching(assets, files) && a in files && a.name !in Names(assets)
    ensures Matching(assets + [a], files)
  {}

  lemma MatchingMeans(assets: seq<Asset>, files: seq<Asset>, k: nat) returns (m: nat)
    requires Matching(assets, files) && k < |assets|
    ensures m < |files| && files[m] == assets[k] && assets[k].name !in Names(assets[..k])
  {
    assert assets[k] in files;
    m :| 0 <= m < |files| && files[m] == assets[k];
    assert forall i | 0 <= i < k :: assets[..k][i] == assets[i];
  }

  lemma NotMatching(assets: seq<Asset>, files: seq<Asset>, k: nat, i: nat)
    requires k < |assets| && i <= |files| && forall j | 0 <= j < i :: files[j].name != assets[k].name
    requires forall j | 0 <= j < |files| :: files[j].uploaded
    requires forall a, b | 0 <= a < b < |files| :: files[a].name != files[b].name
    requires i < |files| ==> files[i].name == assets[k].name
    requires i == |files| || assets[k].name in Names(assets[..k]) || !assets[k].uploaded
          || assets[k].size != files[i].size || assets[k].digest != files[i].digest
    ensures !Matching(assets, files)
  {
    hide Matching, Names;
    if Matching(assets, files) {
      var m := MatchingMeans(assets, files, k);
    }
  }

  lemma WithNothing(r: Remote)
    requires r.releases != []
    ensures WithAssets(r, []) == r
  {
    assert r.releases[0].assets + [] == r.releases[0].assets;
    assert r.releases[0 := r.releases[0]] == r.releases;
  }

  lemma CompleteIs(assets: seq<Asset>, files: seq<Asset>)
    ensures Complete(assets, files) <==> Matching(assets, files) && Names(assets) == Names(files)
  {}

  lemma WithAssetsAppend(r: Remote, files: seq<Asset>, k: nat)
    requires r.releases != [] && k < |files|
    ensures var u, t := WithAssets(r, files[..k]), WithAssets(r, files[..k + 1]);
      t == u.(releases := u.releases[0 := u.releases[0].(assets := u.releases[0].assets + [files[k]])])
  {
    assert files[..k + 1] == files[..k] + [files[k]];
    AppendAssociates(r.releases[0].assets, files[..k], [files[k]]);
  }

  // ---------------------------------------------------------------- safety of one run, and of many

  /** The tag never moves, nothing published changes, no asset is replaced, and no release goes away. */
  ghost predicate Safe(r: Remote, t: Remote, job: Job) {
    && (t.tag == r.tag || (r.tag.None? && t.tag == Some(job.sha)))
    && |r.releases| <= |t.releases| && t.main == r.main && t.locks == r.locks
    && forall i | 0 <= i < |r.releases| ::
         && t.releases[i].id == r.releases[i].id && r.releases[i].assets <= t.releases[i].assets
         && (!r.releases[i].draft ==> t.releases[i] == r.releases[i])
  }

  /** Whatever a run publishes has exactly the local files, under a tag on the local commit. */
  ghost predicate PublishesVerified(r: Remote, t: Remote, job: Job) {
    forall i | 0 <= i < |t.releases| && !t.releases[i].draft && (i < |r.releases| ==> r.releases[i].draft) ::
      Complete(t.releases[i].assets, job.files) && t.tag == Some(job.sha) && t.main == job.sha
  }

  predicate OneDraft(r: Remote) { |r.releases| == 1 && r.releases[0].draft }

  lemma GoMeansDraft(r: Remote, job: Job)
    requires Verify(r, job).Go?
    ensures (r.releases == [] || OneDraft(r)) && r.main == job.sha && (r.tag.None? || r.tag == Some(job.sha))
  {
    hide Matching, Names, Complete;
  }

  lemma SafeChain(r: Remote, t: Remote, u: Remote, job: Job)
    requires Safe(r, t, job) && Safe(t, u, job)
    ensures Safe(r, u, job)
  {}

  lemma StagesSafe(r: Remote, job: Job, budget: nat)
    requires r.releases == [] || OneDraft(r)
    ensures Safe(r, Tagged(r, job, budget).0, job) && Tagged(r, job, budget).0.releases == r.releases
    ensures Safe(r, Drafted(r, budget).0, job)
    ensures Drafted(r, budget).1.Some? ==> OneDraft(Drafted(r, budget).0)
    ensures Drafted(r, budget).1.None? ==> Drafted(r, budget).0 == r
  {}

  lemma UploadSafe(r: Remote, job: Job, files: seq<Asset>, budget: nat)
    requires OneDraft(r)
    ensures Safe(r, Uploaded(r, files, budget).0, job) && OneDraft(Uploaded(r, files, budget).0)
  {}

  lemma CloseSafe(r: Remote, job: Job, budget: nat)
    requires OneDraft(r)
    ensures var t := Closed(r, job, budget).0;
        t.tag == r.tag && t.main == r.main && t.locks == r.locks && |t.releases| == 1
    ensures var t := Closed(r, job, budget).0;
        t.releases[0].id == r.releases[0].id && t.releases[0].assets == r.releases[0].assets
    ensures var t := Closed(r, job, budget).0;
      !t.releases[0].draft ==> Complete(t.releases[0].assets, job.files) && t.tag == Some(job.sha) && t.main == job.sha
  {
    hide Complete;
  }

  lemma DraftsSafe(r: Remote, t: Remote, u: Remote, job: Job)
    requires Safe(r, t, job) && (r.releases == [] || OneDraft(r)) && OneDraft(t)
    requires u.tag == t.tag && u.main == t.main && u.locks == t.locks && |u.releases| == 1
    requires u.releases[0].id == t.releases[0].id && u.releases[0].assets == t.releases[0].assets
    ensures Safe(r, u, job)
  {}

  lemma RunIsSafe(r: Remote, job: Job, budget: nat)
    ensures var t := Published(r, job, budget).0; Safe(r, t, job) && PublishesVerified(r, t, job)
  {
    hide Verify, Safe, Complete, Missing, Tagged, Drafted, Uploaded, Closed;
    SafeItself(r, job);
    if Verify(r, job).Go? {
      var present := Verify(r, job).present;
      GoMeansDraft(r, job);
      var (tagged, b1) := Tagged(r, job, budget);
      StagesSafe(r, job, budget);
      if b1.Some? {
        var (drafted, b2) := Drafted(tagged, b1.value);
        StagesSafe(tagged, job, b1.value);
        SafeChain(r, tagged, drafted, job);
        if b2.Some? {
          var (uploaded, b3) := Uploaded(drafted, Missing(job.files, present), b2.value);
          UploadSafe(drafted, job, Missing(job.files, present), b2.value);
          SafeChain(r, drafted, uploaded, job);
          if b3.Some? {
            CloseSafe(uploaded, job, b3.value);
            DraftsSafe(r, uploaded, Closed(uploaded, job, b3.value).0, job);
          }
        }
      }
    }
  }

  lemma SafeItself(r: Remote, job: Job)
    ensures Safe(r, r, job) && PublishesVerified(r, r, job)
  {}

  function Runs(r: Remote, job: Job, budgets: seq<nat>): Remote {
    if budgets == [] then r else Published(Runs(r, job, budgets[..|budgets| - 1]), job, budgets[|budgets| - 1]).0
  }

  lemma VerifiedChain(r: Remote, t: Remote, u: Remote, job: Job)
    requires Safe(r, t, job) && Safe(t, u, job) && PublishesVerified(r, t, job) && PublishesVerified(t, u, job)
    ensures PublishesVerified(r, u, job)
  {
    hide Complete;
  }

  /** Both hold over any number of runs. */
  lemma {:induction false} RunsAreSafe(r: Remote, job: Job, budgets: seq<nat>)
    ensures Safe(r, Runs(r, job, budgets), job) && PublishesVerified(r, Runs(r, job, budgets), job)
    decreases |budgets|
  {
    hide Published, Safe, PublishesVerified;
    if budgets == [] {
      SafeItself(r, job);
    } else {
      var before := budgets[..|budgets| - 1];
      RunsAreSafe(r, job, before);
      RunIsSafe(Runs(r, job, before), job, budgets[|budgets| - 1]);
      SafeChain(r, Runs(r, job, before), Runs(r, job, budgets), job);
      VerifiedChain(r, Runs(r, job, before), Runs(r, job, budgets), job);
    }
  }

  // ---------------------------------------------------------------- stopping and running again

  /** What is missing after the first `k` missing files were uploaded is the rest of them. */
  lemma {:induction false} MissingAfter(files: seq<Asset>, present: set<string>, k: nat)
    requires forall i, j | 0 <= i < j < |files| :: files[i].name != files[j].name
    requires k <= |Missing(files, present)|
    ensures Missing(files, present + Names(Missing(files, present)[..k])) == Missing(files, present)[k..]
    decreases |files|
  {
    hide Names;
    var todo := Missing(files, present);
    if k == 0 {
      NoNames();
      assert todo[..0] == [] && present + {} == present;
    } else if files[0].name in present {
      MissingAfter(files[1..], present, k);
      assert Missing(files, present + Names(todo[..k])) == Missing(files[1..], present + Names(todo[..k]));
    } else {
      var rest := Missing(files[1..], present);
      MissingSplits(files[0], rest, k);
      NamesFirst(files[0], rest[..k - 1]);
      MissingAfter(files[1..], present, k - 1);
      MissingIgnores(files[1..], present + Names(rest[..k - 1]), files[0].name);
      assert todo[k..] == rest[k - 1..];
      assert present + Names(todo[..k]) == present + Names(rest[..k - 1]) + {files[0].name};
    }
  }

  lemma MissingSplits(a: Asset, rest: seq<Asset>, k: nat)
    requires 1 <= k <= |rest| + 1
    ensures ([a] + rest)[..k] == [a] + rest[..k - 1] && ([a] + rest)[k..] == rest[k - 1..]
  {}

  lemma NoNames()
    ensures Names([]) == {}
  {}

  lemma NamesFirst(a: Asset, assets: seq<Asset>)
    ensures Names([a] + assets) == {a.name} + Names(assets)
  {
    var all := [a] + assets;
    assert all[0] == a && forall i | 0 <= i < |assets| :: all[i + 1] == assets[i];
    forall n | n in Names(assets) ensures n in Names(all) {
      var i :| 0 <= i < |assets| && assets[i].name == n;
      assert all[i + 1].name == n;
    }
    assert all[0].name in Names(all);
  }

  lemma {:induction false} MissingIgnores(files: seq<Asset>, present: set<string>, name: string)
    requires forall i | 0 <= i < |files| :: files[i].name != name
    ensures Missing(files, present + {name}) == Missing(files, present)
  {
    if files == [] {
    } else {
      MissingIgnores(files[1..], present, name);
    }
  }

  lemma {:induction false} MissingFrom(files: seq<Asset>, present: set<string>)
    ensures forall a | a in Missing(files, present) :: a in files && a.name !in present
    ensures |Missing(files, present)| <= |files|
  {
    if files == [] {
    } else {
      MissingFrom(files[1..], present);
      assert forall a | a in files[1..] :: a in files;
    }
  }

  lemma NamesJoin(a: seq<Asset>, b: seq<Asset>)
    ensures Names(a + b) == Names(a) + Names(b)
  {
    forall n | n in Names(a) ensures n in Names(a + b) {
      var i :| 0 <= i < |a| && a[i].name == n;
      assert (a + b)[i].name == n;
    }
    forall n | n in Names(b) ensures n in Names(a + b) {
      var i :| 0 <= i < |b| && b[i].name == n;
      assert (a + b)[|a| + i].name == n;
    }
  }

  lemma {:induction false} MissingDistinct(files: seq<Asset>, present: set<string>)
    requires forall i, j | 0 <= i < j < |files| :: files[i].name != files[j].name
    ensures var todo := Missing(files, present); forall i, j | 0 <= i < j < |todo| :: todo[i].name != todo[j].name
  {
    if files == [] {
    } else {
      MissingDistinct(files[1..], present);
      MissingFrom(files[1..], present);
    }
  }

  lemma {:induction false} MissingCovers(files: seq<Asset>, present: set<string>)
    ensures forall a | a in files :: a.name in present || a in Missing(files, present)
  {
    if files == [] {
    } else {
      MissingCovers(files[1..], present);
      assert files == [files[0]] + files[1..];
    }
  }

  /** Uploading some of what is missing keeps the assets matching; uploading all of it completes them. */
  lemma UploadMatches(assets: seq<Asset>, files: seq<Asset>, k: nat)
    requires forall i, j | 0 <= i < j < |files| :: files[i].name != files[j].name
    requires Matching(assets, files) && k <= |Missing(files, Names(assets))|
    ensures Matching(assets + Missing(files, Names(assets))[..k], files)
    ensures k == |Missing(files, Names(assets))| ==> Complete(assets + Missing(files, Names(assets))[..k], files)
  {
    var todo := Missing(files, Names(assets));
    var all := assets + todo[..k];
    MissingDistinct(files, Names(assets));
    MissingFrom(files, Names(assets));
    forall i | 0 <= i < |all| ensures all[i] in files {
      if i >= |assets| { assert all[i] == todo[i - |assets|]; }
    }
    forall i, j | 0 <= i < j < |all| ensures all[i].name != all[j].name {
      if j >= |assets| {
        assert all[j] == todo[j - |assets|];
        if i >= |assets| { assert all[i] == todo[i - |assets|]; } else { assert assets[i].name in Names(assets); }
      }
    }
    if k == |todo| {
      UploadCovers(assets, files);
      assert todo[..k] == todo;
    }
  }

  lemma UploadCovers(assets: seq<Asset>, files: seq<Asset>)
    requires Matching(assets, files)
    ensures Names(assets + Missing(files, Names(assets))) == Names(files)
  {
    var todo := Missing(files, Names(assets));
    NamesJoin(assets, todo);
    MissingFrom(files, Names(assets));
    MissingCovers(files, Names(assets));
    forall n | n in Names(files) ensures n in Names(assets) + Names(todo) {
      var i :| 0 <= i < |files| && files[i].name == n;
      assert files[i] in files;
      if files[i] in todo {
        var j :| 0 <= j < |todo| && todo[j] == files[i];
      }
    }
    forall n | n in Names(assets) ensures n in Names(files) {
      var i :| 0 <= i < |assets| && assets[i].name == n;
      assert assets[i] in files;
      var j :| 0 <= j < |files| && files[j] == assets[i];
    }
    forall n | n in Names(todo) ensures n in Names(files) {
      var i :| 0 <= i < |todo| && todo[i].name == n;
      assert todo[i] in files;
      var j :| 0 <= j < |files| && files[j] == todo[i];
    }
  }

  /** Tag and draft in place, nothing uploaded yet. */
  function Prepared(r: Remote, job: Job): (t: Remote)
    ensures t.releases != []
  {
    var tagged := r.(tag := Some(job.sha));
    if r.releases != [] then tagged else tagged.(releases := [Draft(r.nextId, true, false, [])], nextId := r.nextId + 1)
  }

  function Todo(r: Remote, job: Job): seq<Asset> { Missing(job.files, Names(Prepared(r, job).releases[0].assets)) }

  lemma PreparedIs(r: Remote, job: Job)
    requires Verify(r, job).Go?
    ensures var p := Prepared(r, job); OneDraft(p) && p.tag == Some(job.sha) && p.main == job.sha && p.locks == r.locks
    ensures Matching(Prepared(r, job).releases[0].assets, job.files)
    ensures Verify(r, job) == Go(Names(Prepared(r, job).releases[0].assets))
    ensures |Todo(r, job)| <= |job.files|
  {
    GoMeansDraft(r, job);
    MissingFrom(job.files, Names(Prepared(r, job).releases[0].assets));
    NoNames();
  }

  /** After the first `k` uploads, verifying again finds just the rest missing. */
  lemma VerifyMidway(r: Remote, job: Job, k: nat)
    requires Sane(job) && Verify(r, job).Go? && k <= |Todo(r, job)|
    ensures var m := WithAssets(Prepared(r, job), Todo(r, job)[..k]);
      Verify(m, job).Go? && Prepared(m, job) == m && Todo(m, job) == Todo(r, job)[k..]
  {
    hide Matching, Complete, Names, Missing, FirstPublished;
    var p, todo := Prepared(r, job), Todo(r, job);
    var assets := p.releases[0].assets;
    PreparedIs(r, job);
    UploadMatches(assets, job.files, k);
    NamesJoin(assets, todo[..k]);
    MissingAfter(job.files, Names(assets), k);
  }

  /** A run with enough budget uploads all that is missing and then closes. */
  lemma FullRun(r: Remote, job: Job, budget: nat)
    requires Verify(r, job).Go? && budget >= Full(job)
    ensures exists left: nat ::
        left > 0 && Published(r, job, budget) == Closed(WithAssets(Prepared(r, job), Todo(r, job)), job, left)
  {
    hide Verify, Missing, Closed, WithAssets, Names;
    PreparedIs(r, job);
    var (tagged, b1) := Tagged(r, job, budget);
    GoMeansDraft(r, job);
    var (drafted, b2) := Drafted(tagged, b1.value);
    assert drafted == Prepared(r, job);
    assert Published(r, job, budget) == Closed(WithAssets(drafted, Todo(r, job)), job, b2.value - |Todo(r, job)|);
  }

  /** Where a run may stop: untouched, with only the tag, or after some of the uploads, or at its end. */
  lemma StopPoints(r: Remote, job: Job, budget: nat)
    requires Verify(r, job).Go?
    ensures var t := Published(r, job, budget).0;
      || t == r
      || (r.releases == [] && t == r.(tag := Some(job.sha)))
      || (exists k: nat :: k <= |Todo(r, job)| && t == WithAssets(Prepared(r, job), Todo(r, job)[..k]))
      || (exists left: nat ::
          left > 0 && Published(r, job, budget) == Closed(WithAssets(Prepared(r, job), Todo(r, job)), job, left))
  {
    hide Verify, Missing, WithAssets, Names, Complete;
    PreparedIs(r, job);
    GoMeansDraft(r, job);
    var (tagged, b1) := Tagged(r, job, budget);
    var todo := Todo(r, job);
    if b1.Some? {
      var (drafted, b2) := Drafted(tagged, b1.value);
      if b2.Some? {
        assert drafted == Prepared(r, job);
        if |todo| > b2.value {
          assert Published(r, job, budget).0 == WithAssets(drafted, todo[..b2.value]);
        } else if |todo| == b2.value {
          assert todo[..|todo|] == todo;
          assert Published(r, job, budget) == Closed(WithAssets(drafted, todo), job, 0);
        } else {
          assert Published(r, job, budget) == Closed(WithAssets(drafted, todo), job, b2.value - |todo|);
        }
      }
    }
  }

  /** The remote state a run ends in when it is not stopped. */
  function Final(r: Remote, job: Job): Remote {
    var p := WithAssets(Prepared(r, job), Todo(r, job));
    p.(releases := p.releases[0 := p.releases[0].(draft := false, immutable := p.locks)])
  }

  lemma FullyUploaded(r: Remote, job: Job)
    requires Sane(job) && Verify(r, job).Go?
    ensures var p := WithAssets(Prepared(r, job), Todo(r, job));
      OneDraft(p) && Complete(p.releases[0].assets, job.files) && p.tag == Some(job.sha) && p.main == job.sha
          && p.locks == r.locks
  {
    hide Verify, Missing, Names, Complete, Matching;
    PreparedIs(r, job);
    var todo := Todo(r, job);
    UploadMatches(Prepared(r, job).releases[0].assets, job.files, |todo|);
    assert todo[..|todo|] == todo;
  }

  /** A run that is not stopped succeeds exactly when the checks pass and the repository locks what is published. */
  lemma FullRunSucceedsExactly(r: Remote, job: Job, budget: nat)
    requires Sane(job) && budget >= Full(job)
    ensures Published(r, job, budget).1 == Done <==> Verify(r, job).Settled? || (Verify(r, job).Go? && r.locks)
    ensures Verify(r, job).Go? ==> Published(r, job, budget).0 == Final(r, job)
  {
    hide Verify, Complete, Matching, Prepared, Todo, WithAssets, Acted;
    if Verify(r, job).Go? {
      FullRun(r, job, budget);
      FullyUploaded(r, job);
    }
  }

  // ---------------------------------------------------------------- success, told from the remote's own fields

  ghost predicate Apart(assets: seq<Asset>) { forall i, j | 0 <= i < j < |assets| :: assets[i].name != assets[j].name }

  /** Among assets with names apart, none is listed twice. */
  lemma {:induction false} ApartCounts(assets: seq<Asset>, a: Asset)
    requires Apart(assets)
    ensures multiset(assets)[a] == if a in assets then 1 else 0
  {
    if assets == [] {
    } else {
      var last := |assets| - 1;
      assert assets == assets[..last] + [assets[last]];
      ApartCounts(assets[..last], a);
    }
  }

  /** Assets match when they are some of the local files, and are complete when they are just these, in any order. */
  lemma MatchingExactly(assets: seq<Asset>, files: seq<Asset>)
    requires Apart(files)
    ensures Matching(assets, files) <==> multiset(assets) <= multiset(files)
    ensures Complete(assets, files) <==> multiset(assets) == multiset(files)
  {
    if Matching(assets, files) {
      forall a ensures multiset(assets)[a] <= multiset(files)[a] {
        ApartCounts(assets, a);
        ApartCounts(files, a);
      }
      if Names(assets) == Names(files) {
        forall a ensures multiset(assets)[a] == multiset(files)[a] {
          ApartCounts(assets, a);
          ApartCounts(files, a);
          SameNameSameFile(assets, files, a);
        }
      }
    }
    if multiset(assets) <= multiset(files) {
      IncludedMatches(assets, files);
    }
    if multiset(assets) == multiset(files) {
      SameNames(assets, files);
    }
  }

  lemma SameNameSameFile(assets: seq<Asset>, files: seq<Asset>, a: Asset)
    requires Matching(assets, files) && Apart(files) && Names(assets) == Names(files)
    ensures a in files ==> a in assets
  {
    if a in files {
      var i :| 0 <= i < |files| && files[i] == a;
      assert a.name in Names(assets);
      var j :| 0 <= j < |assets| && assets[j].name == a.name;
      assert assets[j] in files;
      var k :| 0 <= k < |files| && files[k] == assets[j];
    }
  }

  lemma IncludedMatches(assets: seq<Asset>, files: seq<Asset>)
    requires Apart(files) && multiset(assets) <= multiset(files)
    ensures Matching(assets, files)
  {
    forall i | 0 <= i < |assets| ensures assets[i] in files {
      assert assets[i] in multiset(assets) && assets[i] in multiset(files);
    }
    forall i, j | 0 <= i < j < |assets| ensures assets[i].name != assets[j].name {
      if assets[i] == assets[j] {
        CountedTwice(assets, i, j);
        ApartCounts(files, assets[i]);
      } else {
        assert assets[i] in files && assets[j] in files;
      }
    }
  }

  lemma CountedTwice(assets: seq<Asset>, i: nat, j: nat)
    requires i < j < |assets| && assets[i] == assets[j]
    ensures multiset(assets)[assets[i]] >= 2
  {
    assert assets == assets[..j] + [assets[j]] + assets[j + 1..];
    assert assets[i] in multiset(assets[..j]) by {
      assert assets[..j][i] == assets[i];
    }
  }

  lemma SameNames(assets: seq<Asset>, files: seq<Asset>)
    requires multiset(assets) == multiset(files)
    ensures Names(assets) == Names(files)
  {
    forall n | n in Names(assets) ensures n in Names(files) {
      var i :| 0 <= i < |assets| && assets[i].name == n;
      assert assets[i] in multiset(files);
    }
    forall n | n in Names(files) ensures n in Names(assets) {
      var i :| 0 <= i < |files| && files[i].name == n;
      assert files[i] in multiset(assets);
    }
  }

  /** The release the tag stands for is published, locked, and holds exactly the local files. */
  ghost predicate PublishedAlready(r: Remote, job: Job) {
    && r.tag == Some(job.sha)
    && exists i :: 0 <= i < |r.releases| && !r.releases[i].draft && (forall j | 0 <= j < i :: r.releases[j].draft)
         && r.releases[i].immutable && multiset(r.releases[i].assets) == multiset(job.files)
  }

  /** Nothing is there yet but perhaps the tag; or the tag, and one draft that holds some of the local files. */
  ghost predicate Publishable(r: Remote, job: Job) {
    && r.main == job.sha && r.locks
    && (|| (r.releases == [] && (r.tag == None || r.tag == Some(job.sha)))
        || (|r.releases| == 1 && r.releases[0].draft && r.tag == Some(job.sha)
            && multiset(r.releases[0].assets) <= multiset(job.files)))
  }

  /** One release, published and locked, with exactly the local files under a tag on the local commit. */
  ghost predicate PublishedFrom(r: Remote, t: Remote, job: Job) {
    && t.tag == Some(job.sha) && t.main == r.main && t.locks == r.locks && |t.releases| == 1
    && !t.releases[0].draft && t.releases[0].immutable && multiset(t.releases[0].assets) == multiset(job.files)
    && t.releases[0].id == if r.releases == [] then r.nextId else r.releases[0].id
  }

  lemma {:induction false} FirstPublishedIs(releases: seq<Draft>, i: nat)
    requires i < |releases| && !releases[i].draft && forall j | 0 <= j < i :: releases[j].draft
    ensures FirstPublished(releases) == i
  {
    if i == 0 {
    } else {
      FirstPublishedIs(releases[1..], i - 1);
    }
  }

  lemma {:induction false} SomeFirstPublished(releases: seq<Draft>, i: nat) returns (k: nat)
    requires i < |releases| && !releases[i].draft
    ensures k <= i && !releases[k].draft && forall j | 0 <= j < k :: releases[j].draft
  {
    if j: nat :| j < i && !releases[j].draft {
      k := SomeFirstPublished(releases, j);
    } else {
      k := i;
    }
  }

  lemma SettledExactly(r: Remote, job: Job)
    requires Sane(job)
    ensures Verify(r, job).Settled? <==> PublishedAlready(r, job)
  {
    hide Matching, Complete;
    if i: nat :| i < |r.releases| && !r.releases[i].draft {
      var k := SomeFirstPublished(r.releases, i);
      FirstPublishedIs(r.releases, k);
      MatchingExactly(r.releases[k].assets, job.files);
    }
  }

  lemma GoExactly(r: Remote, job: Job)
    requires Sane(job)
    ensures Verify(r, job).Go? && r.locks <==> Publishable(r, job)
  {
    hide Matching, Complete, Names, FirstPublished;
    if r.releases != [] {
      MatchingExactly(r.releases[0].assets, job.files);
    }
  }

  lemma FinalIs(r: Remote, job: Job)
    requires Sane(job) && Verify(r, job).Go? && r.locks
    ensures PublishedFrom(r, Final(r, job), job)
  {
    hide Verify, Matching, Complete, Names, Missing;
    FullyUploaded(r, job);
    GoMeansDraft(r, job);
    MatchingExactly(Final(r, job).releases[0].assets, job.files);
  }

  /** An unstopped run succeeds exactly on what is published already, and on what can be published, which it then is. */
  lemma DoneExactly(r: Remote, job: Job, budget: nat)
    requires Sane(job) && budget >= Full(job)
    ensures Published(r, job, budget).1 == Done <==> PublishedAlready(r, job) || Publishable(r, job)
    ensures PublishedAlready(r, job) ==> Published(r, job, budget).0 == r
    ensures Publishable(r, job) ==> PublishedFrom(r, Published(r, job, budget).0, job)
    ensures Published(r, job, budget).1 != Stopped
  {
    hide Verify, PublishedAlready, Publishable, PublishedFrom, Final, Acted;
    SettledExactly(r, job);
    GoExactly(r, job);
    FullRunSucceedsExactly(r, job, budget);
    if Verify(r, job).Go? {
      FullRun(r, job, budget);
      if r.locks {
        FinalIs(r, job);
      } else {
        FullyUploaded(r, job);
      }
    }
  }

  lemma FinalSettles(r: Remote, job: Job)
    requires Sane(job) && Verify(r, job).Go? && r.locks
    ensures Verify(Final(r, job), job).Settled?
  {
    hide Complete, Matching, Prepared, Todo, WithAssets;
    FullyUploaded(r, job);
    var t := Final(r, job);
    assert !t.releases[0].draft;
  }

  lemma ResumeTagged(r: Remote, job: Job)
    requires Verify(r, job).Go? && r.releases == []
    ensures var m := r.(tag := Some(job.sha)); Verify(m, job).Go? && Final(m, job) == Final(r, job)
  {
    hide Complete, Matching, Names, Missing, WithAssets;
  }

  lemma ResumeMidway(r: Remote, job: Job, k: nat)
    requires Sane(job) && Verify(r, job).Go? && k <= |Todo(r, job)|
    ensures var m := WithAssets(Prepared(r, job), Todo(r, job)[..k]);
        Verify(m, job).Go? && Final(m, job) == Final(r, job)
  {
    hide Complete, Matching, Names, Missing, Verify, Prepared, Todo;
    VerifyMidway(r, job, k);
    var p, todo := Prepared(r, job), Todo(r, job);
    AppendAssociates(p.releases[0].assets, todo[..k], todo[k..]);
    assert todo[..k] + todo[k..] == todo;
  }

  lemma ClosedIsFinal(r: Remote, job: Job, left: nat)
    requires Sane(job) && Verify(r, job).Go? && left > 0
    ensures Closed(WithAssets(Prepared(r, job), Todo(r, job)), job, left).0 == Final(r, job)
  {
    hide Complete, Matching, Verify, Prepared, Todo, WithAssets;
    FullyUploaded(r, job);
  }

  /**
   * Stopped between any two remote changes and run again, publication reaches the very state it would have reached at
   * once.
   */
  lemma ResumeReachesTheSame(r: Remote, job: Job, budget: nat, full: nat)
    requires Sane(job) && full >= Full(job) && Published(r, job, full).1 == Done
    ensures Published(Published(r, job, budget).0, job, full) == Published(r, job, full)
  {
    hide Complete, Matching, Names, Missing, Verify, Prepared, Todo, WithAssets, Acted, Closed, Final;
    FullRunSucceedsExactly(r, job, full);
    if Verify(r, job).Go? {
      var m := Published(r, job, budget).0;
      StopPoints(r, job, budget);
      GoLocks(r, job, budget);
      if m == r {
      } else if r.releases == [] && m == r.(tag := Some(job.sha)) {
        ResumeTagged(r, job);
        FullRunSucceedsExactly(m, job, full);
      } else if k: nat :| k <= |Todo(r, job)| && m == WithAssets(Prepared(r, job), Todo(r, job)[..k]) {
        ResumeMidway(r, job, k);
        FullRunSucceedsExactly(m, job, full);
      } else {
        var left: nat :| left > 0
            && Published(r, job, budget) == Closed(WithAssets(Prepared(r, job), Todo(r, job)), job, left);
        ClosedIsFinal(r, job, left);
        FinalSettles(r, job);
        FullRunSucceedsExactly(m, job, full);
      }
    }
  }

  lemma GoLocks(r: Remote, job: Job, budget: nat)
    ensures Published(r, job, budget).0.locks == r.locks
  {
    hide Published, PublishesVerified;
    RunIsSafe(r, job, budget);
  }

  /** So does any number of stopped runs, and a last one that is not stopped. */
  lemma {:induction false} AnyRunsReachTheSame(r: Remote, job: Job, budgets: seq<nat>, full: nat)
    requires Sane(job) && full >= Full(job) && Published(r, job, full).1 == Done
    ensures Published(Runs(r, job, budgets), job, full) == Published(r, job, full)
    decreases |budgets|
  {
    hide Published;
    if budgets == [] {
    } else {
      var before := budgets[..|budgets| - 1];
      AnyRunsReachTheSame(r, job, before, full);
      ResumeReachesTheSame(Runs(r, job, before), job, budgets[|budgets| - 1], full);
    }
  }
}
