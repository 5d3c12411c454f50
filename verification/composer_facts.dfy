/**
 * Properties of the orchestration: which plugins an update selects and in
 * what order, the backup gate, the fail-fast apply loop, the ledger that is
 * saved, and the install sequence.
 */
module ComposerFacts {
  import opened Results
  import opened Utils
  import opened OxideComposer

  // ---------------------------------------------------------------------
  // Vocabulary over traces
  // ---------------------------------------------------------------------

  /** The calls that change nothing: signing in and reading plugin pages. */
  predicate ReadOnly(e: Effect)
  {
    e.SignIn? || e.Fetch?
  }

  /** The calls that touch the plugins or their ledger. */
  predicate TouchesPlugins(e: Effect)
  {
    e.Download? || e.Write? || e.SaveLedger?
  }

  ghost predicate AllReadOnly(t: seq<Effect>)
  {
    forall i :: 0 <= i < |t| ==> ReadOnly(t[i])
  }

  /** Nothing in `t` downloads, writes a plugin or saves the ledger. */
  ghost predicate Untouched(t: seq<Effect>)
  {
    forall i :: 0 <= i < |t| ==> !TouchesPlugins(t[i])
  }

  ghost predicate HasBackup(t: seq<Effect>)
  {
    exists j :: 0 <= j < |t| && t[j].Backup?
  }

  /** Every download, plugin write and ledger save comes after a backup. */
  ghost predicate BackupPrecedesChanges(t: seq<Effect>)
  {
    forall i :: 0 <= i < |t| && TouchesPlugins(t[i]) ==> exists j :: 0 <= j < i && t[j].Backup?
  }

  ghost predicate AtMostOneBackup(t: seq<Effect>)
  {
    forall i, j :: 0 <= i < |t| && 0 <= j < |t| && t[i].Backup? && t[j].Backup? ==> i == j
  }

  ghost predicate NoLedgerSave(t: seq<Effect>)
  {
    forall i :: 0 <= i < |t| ==> !t[i].SaveLedger?
  }

  /** A ledger save, if there is one, is the last call. */
  ghost predicate LedgerSavedLast(t: seq<Effect>)
  {
    forall i :: 0 <= i < |t| && t[i].SaveLedger? ==> i == |t| - 1
  }

  /** The plugin ids written, in order. */
  function WrittenIds(t: seq<Effect>): seq<PluginId>
  {
    if t == [] then [] else (if t[0].Write? then [t[0].id] else []) + WrittenIds(t[1..])
  }

  /** The plugin ids downloaded, in order. */
  function DownloadedIds(t: seq<Effect>): seq<PluginId>
  {
    if t == [] then [] else (if t[0].Download? then [t[0].id] else []) + DownloadedIds(t[1..])
  }

  lemma {:induction false} WrittenIdsAppend(a: seq<Effect>, b: seq<Effect>)
    ensures WrittenIds(a + b) == WrittenIds(a) + WrittenIds(b)
    ensures DownloadedIds(a + b) == DownloadedIds(a) + DownloadedIds(b)
    decreases |a|
  {
    if a != [] {
      assert (a + b)[0] == a[0];
      assert (a + b)[1..] == a[1..] + b;
      WrittenIdsAppend(a[1..], b);
      var w := if a[0].Write? then [a[0].id] else [];
      var d := if a[0].Download? then [a[0].id] else [];
      assert WrittenIds(a + b) == w + WrittenIds(a[1..] + b);
      assert DownloadedIds(a + b) == d + DownloadedIds(a[1..] + b);
      assert w + (WrittenIds(a[1..]) + WrittenIds(b)) == (w + WrittenIds(a[1..])) + WrittenIds(b);
      assert d + (DownloadedIds(a[1..]) + DownloadedIds(b)) == (d + DownloadedIds(a[1..])) + DownloadedIds(b);
    } else {
      assert a + b == b;
    }
  }

  /** A trace of sign-ins and page reads downloads and writes nothing. */
  lemma {:induction false} ReadOnlyTouchesNothing(t: seq<Effect>)
    requires AllReadOnly(t)
    ensures WrittenIds(t) == [] && DownloadedIds(t) == []
    decreases |t|
  {
    if t != [] {
      ReadOnlyTouchesNothing(t[1..]);
    }
  }

  // ---------------------------------------------------------------------
  // Vocabulary over manifests and candidates
  // ---------------------------------------------------------------------

  /** No two manifest entries share an id (the manifest is a JSON object). */
  ghost predicate UniqueIds(plugins: Manifest)
  {
    forall i, j :: 0 <= i < j < |plugins| ==> plugins[i].0 != plugins[j].0
  }

  ghost predicate DistinctIds(ps: seq<Plugin>)
  {
    forall i, j :: 0 <= i < j < |ps| ==> ps[i].id != ps[j].id
  }

  function IdSet(ps: seq<Plugin>): set<PluginId>
  {
    set i | 0 <= i < |ps| :: ps[i].id
  }

  function ManifestIds(plugins: Manifest): set<PluginId>
  {
    set i | 0 <= i < |plugins| :: plugins[i].0
  }

  /** `p` is what the site describes for the manifest entry at `j`, and the policy wants it. */
  ghost predicate WantedAt(plugins: Manifest, ledger: Ledger, env: Env, p: Plugin, j: int)
  {
    0 <= j < |plugins| && GetPlugin(env, plugins[j].0) == Success(p) && Wanted(p, plugins[j].1, ledger)
  }

  /** `p` is a wanted manifest plugin. */
  ghost predicate IsWanted(plugins: Manifest, ledger: Ledger, env: Env, p: Plugin)
  {
    exists j :: WantedAt(plugins, ledger, env, p, j)
  }

  /** Each of `ps` is a wanted manifest plugin. */
  ghost predicate AllWanted(plugins: Manifest, ledger: Ledger, env: Env, ps: seq<Plugin>)
  {
    forall i :: 0 <= i < |ps| ==> IsWanted(plugins, ledger, env, ps[i])
  }

  /** Each wanted manifest plugin is among `ps`. */
  ghost predicate NoneMissed(plugins: Manifest, ledger: Ledger, env: Env, ps: seq<Plugin>)
  {
    forall j :: 0 <= j < |plugins| && GetPlugin(env, plugins[j].0).Success?
                && Wanted(GetPlugin(env, plugins[j].0).value, plugins[j].1, ledger)
                ==> GetPlugin(env, plugins[j].0).value in ps
  }

  /** Where `id` first appears in the manifest, or the manifest's length if it does not. */
  function Position(plugins: Manifest, id: PluginId): (k: nat)
    ensures k <= |plugins|
    ensures k < |plugins| ==> plugins[k].0 == id
    ensures forall j :: 0 <= j < k ==> plugins[j].0 != id
    decreases |plugins|
  {
    if plugins == [] then 0
    else if plugins[0].0 == id then 0
    else
      var k := 1 + Position(plugins[1..], id);
      assert forall j :: 0 < j < |plugins| ==> plugins[j] == plugins[1..][j - 1];
      k
  }

  /** `ps` come in the order their ids have in the manifest. */
  ghost predicate InManifestOrder(plugins: Manifest, ps: seq<Plugin>)
  {
    forall i, i' :: 0 <= i < i' < |ps| ==> Position(plugins, ps[i].id) < Position(plugins, ps[i'].id)
  }

  /**
   * The selection run reads the manifest's plugins in order and stops at the
   * first one the site cannot describe, with that plugin's error.
   */
  ghost predicate FetchedInOrder(plugins: Manifest, env: Env, r: Run<seq<Plugin>>)
  {
    && |r.trace| <= |plugins|
    && (forall i :: 0 <= i < |r.trace| ==> r.trace[i] == Fetch(plugins[i].0))
    && (forall i :: 0 <= i < |r.trace| - 1 ==> GetPlugin(env, plugins[i].0).Success?)
    && (r.result.Success? ==> |r.trace| == |plugins|)
    && (r.result.Success? ==> forall j :: 0 <= j < |plugins| ==> GetPlugin(env, plugins[j].0).Success?)
    && (r.result.Failure? ==>
          |r.trace| > 0 && GetPlugin(env, plugins[|r.trace| - 1].0) == Failure(r.result.error))
  }

  // ---------------------------------------------------------------------
  // Candidate selection
  // ---------------------------------------------------------------------

  /** The selection loop fetches in manifest order and fails at the first plugin not found. */
  lemma {:induction false} SelectFetchesInOrder(plugins: Manifest, ledger: Ledger, env: Env)
    ensures FetchedInOrder(plugins, env, Select(plugins, ledger, env))
    decreases |plugins|
  {
    if plugins != [] {
      match GetPlugin(env, plugins[0].0)
      case Failure(e) =>
      case Success(p) =>
        SelectFetchesInOrder(plugins[1..], ledger, env);
        var rest := Select(plugins[1..], ledger, env);
        var r := Select(plugins, ledger, env);
        assert r.trace == [Fetch(plugins[0].0)] + rest.trace;
        forall j | 0 <= j < |plugins| && rest.result.Success?
          ensures GetPlugin(env, plugins[j].0).Success?
        {
          if j > 0 {
            assert plugins[j] == plugins[1..][j - 1];
          }
        }
    }
  }

  /** The selection succeeds exactly when the site describes every manifest plugin. */
  lemma SelectSucceedsIffAllFound(plugins: Manifest, ledger: Ledger, env: Env)
    ensures Select(plugins, ledger, env).result.Success? <==>
      forall j :: 0 <= j < |plugins| ==> GetPlugin(env, plugins[j].0).Success?
  {
    SelectFetchesInOrder(plugins, ledger, env);
  }

  /** Every candidate is a manifest plugin, as the site describes it, that the policy wants. */
  lemma {:induction false} SelectSound(plugins: Manifest, ledger: Ledger, env: Env)
    ensures Select(plugins, ledger, env).result.Success? ==>
      AllWanted(plugins, ledger, env, Select(plugins, ledger, env).result.value)
    decreases |plugins|
  {
    if plugins != [] {
      match GetPlugin(env, plugins[0].0)
      case Failure(e) =>
      case Success(p) =>
        var rest := Select(plugins[1..], ledger, env);
        SelectSound(plugins[1..], ledger, env);
        if rest.result.Success? {
          var picked := if Wanted(p, plugins[0].1, ledger) then [p] else [];
          var cands := picked + rest.result.value;
          assert Select(plugins, ledger, env).result.value == cands;
          forall i | 0 <= i < |cands|
            ensures IsWanted(plugins, ledger, env, cands[i])
          {
            if i < |picked| {
              assert WantedAt(plugins, ledger, env, cands[i], 0);
            } else {
              var m := i - |picked|;
              assert cands[i] == rest.result.value[m];
              var j :| WantedAt(plugins[1..], ledger, env, rest.result.value[m], j);
              assert plugins[1..][j] == plugins[j + 1];
              assert WantedAt(plugins, ledger, env, cands[i], j + 1);
            }
          }
          assert AllWanted(plugins, ledger, env, cands);
        }
    }
  }

  /** Every manifest plugin the policy wants is a candidate. */
  lemma {:induction false} SelectComplete(plugins: Manifest, ledger: Ledger, env: Env)
    ensures Select(plugins, ledger, env).result.Success? ==>
      NoneMissed(plugins, ledger, env, Select(plugins, ledger, env).result.value)
    decreases |plugins|
  {
    if plugins != [] {
      match GetPlugin(env, plugins[0].0)
      case Failure(e) =>
      case Success(p) =>
        var rest := Select(plugins[1..], ledger, env);
        SelectComplete(plugins[1..], ledger, env);
        if rest.result.Success? {
          var picked := if Wanted(p, plugins[0].1, ledger) then [p] else [];
          var cands := picked + rest.result.value;
          assert Select(plugins, ledger, env).result.value == cands;
          forall j | 0 <= j < |plugins| && GetPlugin(env, plugins[j].0).Success?
                     && Wanted(GetPlugin(env, plugins[j].0).value, plugins[j].1, ledger)
            ensures GetPlugin(env, plugins[j].0).value in cands
          {
            if j > 0 {
              assert plugins[j] == plugins[1..][j - 1];
            }
          }
        }
    }
  }

  /** With unique manifest ids, a plugin wanted from the tail is not the head's, and sits one past its tail position. */
  lemma TailCandidateNotHead(plugins: Manifest, ledger: Ledger, env: Env, q: Plugin)
    requires |plugins| > 0 && UniqueIds(plugins)
    requires IsWanted(plugins[1..], ledger, env, q)
    ensures q.id != plugins[0].0
    ensures Position(plugins, q.id) == 1 + Position(plugins[1..], q.id)
  {
    var k :| WantedAt(plugins[1..], ledger, env, q, k);
    assert plugins[1..][k] == plugins[k + 1];
    assert q.id == plugins[k + 1].0;
  }

  /** Every plugin wanted from the tail sits one past its tail position. */
  lemma ShiftedPositions(plugins: Manifest, ledger: Ledger, env: Env, rest: seq<Plugin>)
    requires |plugins| > 0 && UniqueIds(plugins)
    requires AllWanted(plugins[1..], ledger, env, rest)
    ensures forall m :: 0 <= m < |rest| ==> Position(plugins, rest[m].id) == 1 + Position(plugins[1..], rest[m].id)
  {
    forall m | 0 <= m < |rest|
      ensures Position(plugins, rest[m].id) == 1 + Position(plugins[1..], rest[m].id)
    {
      TailCandidateNotHead(plugins, ledger, env, rest[m]);
    }
  }

  /** Tail candidates in tail order are in manifest order once every one sits one past its tail position. */
  lemma OrderShift(plugins: Manifest, rest: seq<Plugin>)
    requires |plugins| > 0
    requires forall m :: 0 <= m < |rest| ==> Position(plugins, rest[m].id) == 1 + Position(plugins[1..], rest[m].id)
    requires InManifestOrder(plugins[1..], rest)
    ensures InManifestOrder(plugins, rest)
  {
  }

  /** A plugin at the manifest's head goes before candidates that all sit past it. */
  lemma OrderHead(plugins: Manifest, p: Plugin, rest: seq<Plugin>)
    requires Position(plugins, p.id) == 0
    requires forall m :: 0 <= m < |rest| ==> 0 < Position(plugins, rest[m].id)
    requires InManifestOrder(plugins, rest)
    ensures InManifestOrder(plugins, [p] + rest)
  {
    var cands := [p] + rest;
    forall i, i' | 0 <= i < i' < |cands|
      ensures Position(plugins, cands[i].id) < Position(plugins, cands[i'].id)
    {
      assert cands[i'] == rest[i' - 1];
      if i > 0 {
        assert cands[i] == rest[i - 1];
      }
    }
  }

  /** Candidates keep the manifest's order. */
  lemma {:induction false} SelectKeepsManifestOrder(plugins: Manifest, ledger: Ledger, env: Env)
    requires UniqueIds(plugins)
    ensures Select(plugins, ledger, env).result.Success? ==>
      InManifestOrder(plugins, Select(plugins, ledger, env).result.value)
    decreases |plugins|
  {
    if plugins != [] {
      match GetPlugin(env, plugins[0].0)
      case Failure(e) =>
      case Success(p) =>
        var tail := plugins[1..];
        var rest := Select(tail, ledger, env);
        assert UniqueIds(tail) by {
          forall i, j | 0 <= i < j < |tail| ensures tail[i].0 != tail[j].0 {
            assert tail[i] == plugins[i + 1] && tail[j] == plugins[j + 1];
          }
        }
        SelectKeepsManifestOrder(tail, ledger, env);
        SelectSound(tail, ledger, env);
        if rest.result.Success? {
          var picked := if Wanted(p, plugins[0].1, ledger) then [p] else [];
          assert Select(plugins, ledger, env).result.value == picked + rest.result.value;
          ShiftedPositions(plugins, ledger, env, rest.result.value);
          OrderShift(plugins, rest.result.value);
          if picked == [p] {
            OrderHead(plugins, p, rest.result.value);
          } else {
            assert picked + rest.result.value == rest.result.value;
          }
        }
    }
  }

  /** From a manifest without repeated ids, no plugin is selected twice. */
  lemma SelectDistinct(plugins: Manifest, ledger: Ledger, env: Env)
    requires UniqueIds(plugins)
    ensures Select(plugins, ledger, env).result.Success? ==>
      DistinctIds(Select(plugins, ledger, env).result.value)
  {
    SelectKeepsManifestOrder(plugins, ledger, env);
  }

  /** A manifest plugin with no ledger entry is always a candidate. */
  lemma UnrecordedPluginIsCandidate(plugins: Manifest, ledger: Ledger, env: Env, j: nat)
    requires j < |plugins| && plugins[j].0 !in ledger
    ensures Select(plugins, ledger, env).result.Success? ==>
      GetPlugin(env, plugins[j].0).Success?
      && GetPlugin(env, plugins[j].0).value in Select(plugins, ledger, env).result.value
  {
    SelectFetchesInOrder(plugins, ledger, env);
    SelectComplete(plugins, ledger, env);
  }

  /** A candidate is wanted under the manifest entry that has its id. */
  lemma CandidateIsWanted(plugins: Manifest, ledger: Ledger, env: Env, j: nat, q: Plugin)
    requires j < |plugins| && UniqueIds(plugins)
    requires IsWanted(plugins, ledger, env, q) && q.id == plugins[j].0
    ensures GetPlugin(env, plugins[j].0) == Success(q)
    ensures Wanted(q, plugins[j].1, ledger)
  {
    var k :| WantedAt(plugins, ledger, env, q, k);
    assert plugins[k].0 == q.id;
    assert k == j;
  }

  /** From a manifest without repeated ids, a manifest plugin is a candidate exactly when the policy wants it. */
  lemma CandidateIffWanted(plugins: Manifest, ledger: Ledger, env: Env, j: nat)
    requires j < |plugins| && UniqueIds(plugins)
    requires Select(plugins, ledger, env).result.Success?
    ensures GetPlugin(env, plugins[j].0).Success?
    ensures GetPlugin(env, plugins[j].0).value in Select(plugins, ledger, env).result.value <==>
      Wanted(GetPlugin(env, plugins[j].0).value, plugins[j].1, ledger)
  {
    var cands := Select(plugins, ledger, env).result.value;
    SelectSucceedsIffAllFound(plugins, ledger, env);
    SelectComplete(plugins, ledger, env);
    var p := GetPlugin(env, plugins[j].0).value;
    if p in cands {
      SelectSound(plugins, ledger, env);
      var i :| 0 <= i < |cands| && cands[i] == p;
      CandidateIsWanted(plugins, ledger, env, j, cands[i]);
    }
  }

  /**
   * A recorded manifest plugin is a candidate exactly when the site's
   * version is a minor release over the recorded one, or a major release
   * that its manifest entry allows.
   */
  lemma RecordedPluginCandidacy(plugins: Manifest, ledger: Ledger, env: Env, j: nat)
    requires j < |plugins| && plugins[j].0 in ledger && UniqueIds(plugins)
    requires Select(plugins, ledger, env).result.Success?
    ensures GetPlugin(env, plugins[j].0).Success?
    ensures
      var p := GetPlugin(env, plugins[j].0).value;
      var bump := IsGreater(p.version, ledger[plugins[j].0].version);
      p in Select(plugins, ledger, env).result.value <==> bump == Minor || (bump == Major && plugins[j].1)
  {
    CandidateIffWanted(plugins, ledger, env, j);
    var p := GetPlugin(env, plugins[j].0).value;
    assert p.id == plugins[j].0;
  }

  // ---------------------------------------------------------------------
  // The apply loop
  // ---------------------------------------------------------------------

  /**
   * The apply run only downloads and writes plugins, in candidate order, and
   * stops at the first plugin that fails: the plugins touched are a prefix
   * of the candidates, all of them on success, and the error is the failed
   * download of the last one reached or a failed write.
   */
  ghost predicate StopsAtFirstFailure(candidates: seq<Plugin>, oxideFolder: string, env: Env, r: Run<Ledger>)
  {
    && (forall i :: 0 <= i < |r.trace| ==> r.trace[i].Download? || r.trace[i].Write?)
    && WrittenIds(r.trace) <= DownloadedIds(r.trace) <= Ids(candidates)
    && (r.result.Success? ==> WrittenIds(r.trace) == Ids(candidates))
    && (r.result.Failure? ==>
          0 < |DownloadedIds(r.trace)|
          && (r.result.error == DownloadFailed(candidates[|DownloadedIds(r.trace)| - 1].id)
              || r.result.error.WriteFailed?)
          && EarlierInstallable(candidates, oxideFolder, env, r.trace)
          && !Installable(candidates[|DownloadedIds(r.trace)| - 1], oxideFolder, env)
          && |DownloadedIds(r.trace)| <= |WrittenIds(r.trace)| + 1)
  }

  /** The ledger `l` is `ledger` with each of the candidates recorded. */
  ghost predicate RecordsAll(ledger: Ledger, candidates: seq<Plugin>, now: string, l: Ledger)
  {
    && l.Keys == ledger.Keys + IdSet(candidates)
    && (forall k :: k in ledger && k !in IdSet(candidates) ==> l[k] == ledger[k])
    && (forall i :: 0 <= i < |candidates| ==>
          l[candidates[i].id] ==
            Entry(AsInstalled(candidates[i].version),
                  if candidates[i].id in ledger then ledger[candidates[i].id].time else now))
  }

  /** Installing one plugin always downloads it, and writes it only when the download is usable. */
  lemma InstallPluginIds(p: Plugin, ledger: Ledger, oxideFolder: string, env: Env)
    ensures DownloadedIds(InstallPlugin(p, ledger, oxideFolder, env).trace) == [p.id]
    ensures WrittenIds(InstallPlugin(p, ledger, oxideFolder, env).trace) == if Downloadable(p, env) then [p.id] else []
    ensures forall i :: 0 <= i < |InstallPlugin(p, ledger, oxideFolder, env).trace| ==>
      InstallPlugin(p, ledger, oxideFolder, env).trace[i].Download? ||
      InstallPlugin(p, ledger, oxideFolder, env).trace[i].Write?
  {
    var t := InstallPlugin(p, ledger, oxideFolder, env).trace;
    assert WrittenIds([Download(p.id)]) == [] + WrittenIds([]);
    assert DownloadedIds([Download(p.id)]) == [p.id] + DownloadedIds([]);
    if Downloadable(p, env) {
      var w := t[1];
      assert t == [Download(p.id)] + [w];
      WrittenIdsAppend([Download(p.id)], [w]);
      assert WrittenIds([w]) == [p.id] + WrittenIds([]);
      assert DownloadedIds([w]) == [] + DownloadedIds([]);
    }
  }

  lemma PrefixCons(x: seq<PluginId>, a: seq<PluginId>, b: seq<PluginId>)
    requires a <= b
    ensures x + a <= x + b
  {
    assert (x + b)[..|x + a|] == x + b[..|a|];
  }

  /** The apply run makes only downloads and writes. */
  lemma {:induction false} ApplyOnlyInstalls(candidates: seq<Plugin>, ledger: Ledger, oxideFolder: string, env: Env)
    ensures forall i :: 0 <= i < |Apply(candidates, ledger, oxideFolder, env).trace| ==>
      Apply(candidates, ledger, oxideFolder, env).trace[i].Download? ||
      Apply(candidates, ledger, oxideFolder, env).trace[i].Write?
    decreases |candidates|
  {
    if candidates != [] {
      var first := InstallPlugin(candidates[0], ledger, oxideFolder, env);
      InstallPluginIds(candidates[0], ledger, oxideFolder, env);
      if first.result.Success? {
        var rest := Apply(candidates[1..], first.result.value, oxideFolder, env);
        ApplyOnlyInstalls(candidates[1..], first.result.value, oxideFolder, env);
        var t := first.trace + rest.trace;
        assert Apply(candidates, ledger, oxideFolder, env).trace == t;
        forall i | 0 <= i < |t|
          ensures t[i].Download? || t[i].Write?
        {
          if i >= |first.trace| {
            assert t[i] == rest.trace[i - |first.trace|];
          }
        }
      }
    }
  }

  /** The plugins the apply run downloads are a prefix of the candidates. */
  lemma {:induction false} ApplyDownloadsPrefix(candidates: seq<Plugin>, ledger: Ledger, oxideFolder: string, env: Env)
    ensures DownloadedIds(Apply(candidates, ledger, oxideFolder, env).trace) <= Ids(candidates)
    decreases |candidates|
  {
    var r := Apply(candidates, ledger, oxideFolder, env);
    if candidates == [] {
      assert r.trace == [];
    } else {
      var c := candidates[0];
      var tail := candidates[1..];
      var first := InstallPlugin(c, ledger, oxideFolder, env);
      InstallPluginIds(c, ledger, oxideFolder, env);
      assert Ids(candidates) == [c.id] + Ids(tail);
      if first.result.Success? {
        var rest := Apply(tail, first.result.value, oxideFolder, env);
        ApplyDownloadsPrefix(tail, first.result.value, oxideFolder, env);
        WrittenIdsAppend(first.trace, rest.trace);
        assert r.trace == first.trace + rest.trace;
        assert DownloadedIds(r.trace) == [c.id] + DownloadedIds(rest.trace);
        PrefixCons([c.id], DownloadedIds(rest.trace), Ids(tail));
      } else {
        assert r == first;
        PrefixCons([c.id], [], Ids(tail));
      }
    }
  }

  /** The plugins the apply run writes are a prefix of the ones it downloads. */
  lemma {:induction false} ApplyWritesPrefix(candidates: seq<Plugin>, ledger: Ledger, oxideFolder: string, env: Env)
    ensures var t := Apply(candidates, ledger, oxideFolder, env).trace;
      WrittenIds(t) <= DownloadedIds(t)
    decreases |candidates|
  {
    var r := Apply(candidates, ledger, oxideFolder, env);
    if candidates == [] {
      assert r.trace == [];
    } else {
      var c := candidates[0];
      var tail := candidates[1..];
      var first := InstallPlugin(c, ledger, oxideFolder, env);
      InstallPluginIds(c, ledger, oxideFolder, env);
      if first.result.Success? {
        var rest := Apply(tail, first.result.value, oxideFolder, env);
        ApplyWritesPrefix(tail, first.result.value, oxideFolder, env);
        WrittenIdsAppend(first.trace, rest.trace);
        assert r.trace == first.trace + rest.trace;
        assert WrittenIds(r.trace) == [c.id] + WrittenIds(rest.trace);
        assert DownloadedIds(r.trace) == [c.id] + DownloadedIds(rest.trace);
        PrefixCons([c.id], WrittenIds(rest.trace), DownloadedIds(rest.trace));
      } else {
        assert r == first;
      }
    }
  }

  /**
   * The plugins the apply run downloads are a prefix of the candidates, and
   * the ones it writes are a prefix of those.
   */
  lemma ApplyTouchesPrefix(candidates: seq<Plugin>, ledger: Ledger, oxideFolder: string, env: Env)
    ensures var r := Apply(candidates, ledger, oxideFolder, env);
      WrittenIds(r.trace) <= DownloadedIds(r.trace) <= Ids(candidates)
  {
    ApplyDownloadsPrefix(candidates, ledger, oxideFolder, env);
    ApplyWritesPrefix(candidates, ledger, oxideFolder, env);
  }

  /** A successful apply run wrote every candidate, in order. */
  lemma {:induction false} ApplyWritesAll(candidates: seq<Plugin>, ledger: Ledger, oxideFolder: string, env: Env)
    ensures var r := Apply(candidates, ledger, oxideFolder, env);
      r.result.Success? ==> WrittenIds(r.trace) == Ids(candidates)
    decreases |candidates|
  {
    var r := Apply(candidates, ledger, oxideFolder, env);
    if candidates == [] {
      assert r.trace == [];
      assert Ids(candidates) == [];
    } else if r.result.Success? {
      var c := candidates[0];
      var tail := candidates[1..];
      var first := InstallPlugin(c, ledger, oxideFolder, env);
      assert first.result.Success?;
      InstallPluginIds(c, ledger, oxideFolder, env);
      assert WrittenIds(first.trace) == [c.id];
      assert Ids(candidates) == [c.id] + Ids(tail);
      var rest := Apply(tail, first.result.value, oxideFolder, env);
      assert rest.result.Success?;
      ApplyWritesAll(tail, first.result.value, oxideFolder, env);
      WrittenIdsAppend(first.trace, rest.trace);
      assert r.trace == first.trace + rest.trace;
    }
  }

  /** A failed apply run failed on the last candidate it downloaded, either at that download or at a write. */
  lemma {:induction false} ApplyFailureNamesLast(candidates: seq<Plugin>, ledger: Ledger, oxideFolder: string, env: Env)
    ensures var r := Apply(candidates, ledger, oxideFolder, env);
      r.result.Failure? ==>
        0 < |DownloadedIds(r.trace)| <= |candidates|
        && (r.result.error == DownloadFailed(candidates[|DownloadedIds(r.trace)| - 1].id)
            || r.result.error.WriteFailed?)
    decreases |candidates|
  {
    var r := Apply(candidates, ledger, oxideFolder, env);
    if candidates != [] && r.result.Failure? {
      var c := candidates[0];
      var tail := candidates[1..];
      var first := InstallPlugin(c, ledger, oxideFolder, env);
      InstallPluginIds(c, ledger, oxideFolder, env);
      if first.result.Success? {
        var rest := Apply(tail, first.result.value, oxideFolder, env);
        ApplyFailureNamesLast(tail, first.result.value, oxideFolder, env);
        WrittenIdsAppend(first.trace, rest.trace);
        assert r.trace == first.trace + rest.trace;
        var k := |DownloadedIds(rest.trace)|;
        assert tail[k - 1] == candidates[k];
      }
    }
  }

  /** A candidate that can be downloaded and whose file can be written: `installPlugin` succeeds on it. */
  predicate Installable(p: Plugin, oxideFolder: string, env: Env)
  {
    Downloadable(p, env) && PluginFilePath(oxideFolder, env.payloads[(p.id, p.download)].file) !in env.unwritable
  }

  /** The apply loop succeeds exactly when every candidate can be installed. */
  lemma {:induction false} ApplySucceedsIffAllInstallable(candidates: seq<Plugin>, ledger: Ledger, oxideFolder: string, env: Env)
    ensures Apply(candidates, ledger, oxideFolder, env).result.Success? <==>
      forall i :: 0 <= i < |candidates| ==> Installable(candidates[i], oxideFolder, env)
    decreases |candidates|
  {
    if candidates != [] {
      var first := InstallPlugin(candidates[0], ledger, oxideFolder, env);
      if first.result.Success? {
        var tail := candidates[1..];
        ApplySucceedsIffAllInstallable(tail, first.result.value, oxideFolder, env);
        assert forall i :: 1 <= i < |candidates| ==> candidates[i] == tail[i - 1];
      }
    }
  }

  /** A failed apply loop failed at a candidate that cannot be installed: the last one it downloaded. */
  lemma {:induction false} ApplyFailsAtUninstallable(candidates: seq<Plugin>, ledger: Ledger, oxideFolder: string, env: Env)
    ensures var r := Apply(candidates, ledger, oxideFolder, env);
      r.result.Failure? ==>
        && 0 < |DownloadedIds(r.trace)| <= |candidates|
        && !Installable(candidates[|DownloadedIds(r.trace)| - 1], oxideFolder, env)
    decreases |candidates|
  {
    var r := Apply(candidates, ledger, oxideFolder, env);
    if candidates != [] && r.result.Failure? {
      var c := candidates[0];
      var tail := candidates[1..];
      var first := InstallPlugin(c, ledger, oxideFolder, env);
      InstallPluginIds(c, ledger, oxideFolder, env);
      if first.result.Success? {
        var rest := Apply(tail, first.result.value, oxideFolder, env);
        ApplyFailsAtUninstallable(tail, first.result.value, oxideFolder, env);
        WrittenIdsAppend(first.trace, rest.trace);
        assert r.trace == first.trace + rest.trace;
        var k := |DownloadedIds(rest.trace)|;
        assert |DownloadedIds(r.trace)| == k + 1;
        assert tail[k - 1] == candidates[k];
      }
    }
  }

  /** Every candidate downloaded in `t` before the last download can be installed. */
  ghost predicate EarlierInstallable(candidates: seq<Plugin>, oxideFolder: string, env: Env, t: seq<Effect>)
  {
    forall i :: 0 <= i < |DownloadedIds(t)| - 1 ==> i < |candidates| && Installable(candidates[i], oxideFolder, env)
  }

  /** Every candidate an apply loop downloaded before the last one could be installed. */
  lemma {:induction false} ApplyEarlierInstallable(candidates: seq<Plugin>, ledger: Ledger, oxideFolder: string, env: Env)
    ensures EarlierInstallable(candidates, oxideFolder, env, Apply(candidates, ledger, oxideFolder, env).trace)
    decreases |candidates|
  {
    var r := Apply(candidates, ledger, oxideFolder, env);
    if candidates != [] {
      var c := candidates[0];
      var tail := candidates[1..];
      var first := InstallPlugin(c, ledger, oxideFolder, env);
      InstallPluginIds(c, ledger, oxideFolder, env);
      if first.result.Success? {
        assert Installable(c, oxideFolder, env);
        var rest := Apply(tail, first.result.value, oxideFolder, env);
        ApplyEarlierInstallable(tail, first.result.value, oxideFolder, env);
        assert EarlierInstallable(tail, oxideFolder, env, rest.trace);
        ApplyTouchesPrefix(tail, first.result.value, oxideFolder, env);
        WrittenIdsAppend(first.trace, rest.trace);
        assert r.trace == first.trace + rest.trace;
        var k := |DownloadedIds(rest.trace)|;
        assert |DownloadedIds(r.trace)| == k + 1;
        assert k <= |Ids(tail)| == |tail|;
        forall i | 0 <= i < k
          ensures i < |candidates| && Installable(candidates[i], oxideFolder, env)
        {
          if i > 0 {
            assert i - 1 < |DownloadedIds(rest.trace)| - 1;
            assert candidates[i] == tail[i - 1];
          }
        }
        assert EarlierInstallable(candidates, oxideFolder, env, r.trace);
      } else {
        assert r == first;
        assert |DownloadedIds(r.trace)| == 1;
      }
    } else {
      assert r.trace == [];
      assert DownloadedIds(r.trace) == [];
    }
  }

  /** Every plugin the apply loop downloads is also written, except possibly the last. */
  lemma {:induction false} ApplyWritesAllButLast(candidates: seq<Plugin>, ledger: Ledger, oxideFolder: string, env: Env)
    ensures var r := Apply(candidates, ledger, oxideFolder, env);
      |DownloadedIds(r.trace)| <= |WrittenIds(r.trace)| + 1
    decreases |candidates|
  {
    var r := Apply(candidates, ledger, oxideFolder, env);
    if candidates != [] {
      var c := candidates[0];
      var first := InstallPlugin(c, ledger, oxideFolder, env);
      InstallPluginIds(c, ledger, oxideFolder, env);
      if first.result.Success? {
        var rest := Apply(candidates[1..], first.result.value, oxideFolder, env);
        ApplyWritesAllButLast(candidates[1..], first.result.value, oxideFolder, env);
        WrittenIdsAppend(first.trace, rest.trace);
        assert r.trace == first.trace + rest.trace;
      }
    }
  }

  /**
   * The apply loop installs the candidates in order and stops at the first
   * failure: every candidate before the failing one was installed, and none
   * after it was touched.
   */
  lemma ApplyFailsFast(candidates: seq<Plugin>, ledger: Ledger, oxideFolder: string, env: Env)
    ensures StopsAtFirstFailure(candidates, oxideFolder, env, Apply(candidates, ledger, oxideFolder, env))
  {
    ApplyFailsAtUninstallable(candidates, ledger, oxideFolder, env);
    ApplyEarlierInstallable(candidates, ledger, oxideFolder, env);
    ApplyWritesAllButLast(candidates, ledger, oxideFolder, env);
    ApplyOnlyInstalls(candidates, ledger, oxideFolder, env);
    ApplyTouchesPrefix(candidates, ledger, oxideFolder, env);
    ApplyWritesAll(candidates, ledger, oxideFolder, env);
    ApplyFailureNamesLast(candidates, ledger, oxideFolder, env);
  }

  lemma IdSetSingleton(p: Plugin)
    ensures IdSet([p]) == {p.id}
  {
    assert [p][0] == p;
  }

  lemma IdSetCons(candidates: seq<Plugin>)
    requires candidates != []
    ensures IdSet(candidates) == {candidates[0].id} + IdSet(candidates[1..])
  {
    var tail := candidates[1..];
    forall x | x in IdSet(candidates)
      ensures x in {candidates[0].id} + IdSet(tail)
    {
      var i :| 0 <= i < |candidates| && candidates[i].id == x;
      if i > 0 {
        assert tail[i - 1] == candidates[i];
      }
    }
    forall x | x in IdSet(tail)
      ensures x in IdSet(candidates)
    {
      var i :| 0 <= i < |tail| && tail[i].id == x;
      assert candidates[i + 1] == tail[i];
    }
  }

  /** The apply loop leaves every entry of a plugin that is not a candidate as it was. */
  lemma {:induction false} ApplyKeepsOthers(candidates: seq<Plugin>, ledger: Ledger, oxideFolder: string, env: Env)
    ensures var r := Apply(candidates, ledger, oxideFolder, env);
      r.result.Success? ==> forall k :: k in ledger && k !in IdSet(candidates) ==>
        k in r.result.value && r.result.value[k] == ledger[k]
    decreases |candidates|
  {
    var r := Apply(candidates, ledger, oxideFolder, env);
    if candidates != [] && r.result.Success? {
      var c := candidates[0];
      var l1 := InstallPlugin(c, ledger, oxideFolder, env).result.value;
      ApplyKeepsOthers(candidates[1..], l1, oxideFolder, env);
      IdSetCons(candidates);
    }
  }

  /**
   * After a successful apply loop over candidates with distinct ids, each
   * candidate's entry carries the site's version and keeps its first-install
   * time, or gets the current one if it is new.
   */
  lemma {:induction false} ApplyRecordsEach(candidates: seq<Plugin>, ledger: Ledger, oxideFolder: string, env: Env)
    requires DistinctIds(candidates)
    ensures var r := Apply(candidates, ledger, oxideFolder, env);
      r.result.Success? ==> forall i :: 0 <= i < |candidates| ==>
        candidates[i].id in r.result.value &&
        r.result.value[candidates[i].id] ==
          Entry(AsInstalled(candidates[i].version),
                if candidates[i].id in ledger then ledger[candidates[i].id].time else env.now)
    decreases |candidates|
  {
    var r := Apply(candidates, ledger, oxideFolder, env);
    if candidates != [] && r.result.Success? {
      var c := candidates[0];
      var l1 := InstallPlugin(c, ledger, oxideFolder, env).result.value;
      var tail := candidates[1..];
      assert DistinctIds(tail) by {
        forall i, j | 0 <= i < j < |tail| ensures tail[i].id != tail[j].id {
          assert tail[i] == candidates[i + 1] && tail[j] == candidates[j + 1];
        }
      }
      ApplyRecordsEach(tail, l1, oxideFolder, env);
      ApplyKeepsOthers(tail, l1, oxideFolder, env);
      var l := r.result.value;
      assert l == Apply(tail, l1, oxideFolder, env).result.value;
      assert c.id !in IdSet(tail) by {
        forall i | 0 <= i < |tail| ensures tail[i].id != c.id {
          assert tail[i] == candidates[i + 1];
        }
      }
      forall i | 0 <= i < |candidates|
        ensures candidates[i].id in l && l[candidates[i].id] ==
          Entry(AsInstalled(candidates[i].version),
                if candidates[i].id in ledger then ledger[candidates[i].id].time else env.now)
      {
        if i > 0 {
          assert candidates[i] == tail[i - 1];
        }
      }
    }
  }

  /** A successful apply loop over candidates with distinct ids records them all and nothing else. */
  lemma ApplyRecordsCandidates(candidates: seq<Plugin>, ledger: Ledger, oxideFolder: string, env: Env)
    requires DistinctIds(candidates)
    ensures Apply(candidates, ledger, oxideFolder, env).result.Success? ==>
      RecordsAll(ledger, candidates, env.now, Apply(candidates, ledger, oxideFolder, env).result.value)
  {
    ApplyKeys(candidates, ledger, oxideFolder, env);
    ApplyKeepsOthers(candidates, ledger, oxideFolder, env);
    ApplyRecordsEach(candidates, ledger, oxideFolder, env);
  }

  /** The apply loop adds the candidates' ids to the ledger and removes none. */
  lemma {:induction false} ApplyKeys(candidates: seq<Plugin>, ledger: Ledger, oxideFolder: string, env: Env)
    ensures Apply(candidates, ledger, oxideFolder, env).result.Success? ==>
      Apply(candidates, ledger, oxideFolder, env).result.value.Keys == ledger.Keys + IdSet(candidates)
    decreases |candidates|
  {
    var r := Apply(candidates, ledger, oxideFolder, env);
    if candidates != [] && r.result.Success? {
      var c := candidates[0];
      ApplyKeys(candidates[1..], InstallPlugin(c, ledger, oxideFolder, env).result.value, oxideFolder, env);
      IdSetCons(candidates);
    }
  }

  // ---------------------------------------------------------------------
  // update
  // ---------------------------------------------------------------------

  /** Checking for updates only signs in and reads plugin pages, and yields the selection. */
  lemma CheckReadsOnly(c: Composer, env: Env)
    ensures AllReadOnly(CheckForUpdates(c, env).trace)
    ensures CheckForUpdates(c, env).result.Success? <==>
      SignInWith(c.config, env).result.Success? && Select(c.config.plugins, c.ledger, env).result.Success?
    ensures CheckForUpdates(c, env).result.Success? ==>
      CheckForUpdates(c, env).result == Select(c.config.plugins, c.ledger, env).result
  {
    SelectFetchesInOrder(c.config.plugins, c.ledger, env);
  }

  /** The check found something to apply, so the update goes on to the backup. */
  ghost predicate Proceeds(c: Composer, env: Env)
  {
    CheckForUpdates(c, env).result.Success? && |CheckForUpdates(c, env).result.value| > 0
  }

  /** How an update's run is made of its two halves. */
  lemma UpdateHalves(c: Composer, env: Env)
    ensures Proceeds(c, env) ==>
      Update(c, env) == Run(BackupAndApply(c, CheckForUpdates(c, env).result.value, env).result,
                            CheckForUpdates(c, env).trace + BackupAndApply(c, CheckForUpdates(c, env).result.value, env).trace)
    ensures !Proceeds(c, env) ==> Update(c, env).trace == CheckForUpdates(c, env).trace
    ensures !Proceeds(c, env) ==>
      (Update(c, env).result == Success(UpToDate) <==> CheckForUpdates(c, env).result == Success([]))
    ensures !Proceeds(c, env) ==> Update(c, env).result.Failure? || Update(c, env).result == Success(UpToDate)
  {
  }

  /**
   * The backup-and-apply half starts with its backup and makes no other; the
   * rest of its calls are downloads and writes and at most one ledger save,
   * which comes last and carries the ledger the apply loop built.
   */
  lemma BackupAndApplyShape(c: Composer, candidates: seq<Plugin>, env: Env)
    ensures |BackupAndApply(c, candidates, env).trace| > 0
    ensures BackupAndApply(c, candidates, env).trace[0] == BackupOf(c.config.oxideFolder, env)
    ensures forall i :: 1 <= i < |BackupAndApply(c, candidates, env).trace| ==>
      TouchesPlugins(BackupAndApply(c, candidates, env).trace[i])
    ensures forall i :: 0 <= i < |BackupAndApply(c, candidates, env).trace| && BackupAndApply(c, candidates, env).trace[i].SaveLedger? ==>
      && i == |BackupAndApply(c, candidates, env).trace| - 1
      && Apply(candidates, c.ledger, c.config.oxideFolder, env).result.Success?
      && BackupAndApply(c, candidates, env).trace[i].ledger == Apply(candidates, c.ledger, c.config.oxideFolder, env).result.value
  {
    ApplyOnlyInstalls(candidates, c.ledger, c.config.oxideFolder, env);
  }

  /**
   * The backup-and-apply half fails at the backup when `zip` prints fewer than
   * three lines; it saves no ledger unless the apply loop succeeded, and it
   * reports the candidates updated only once that save succeeded.
   */
  lemma BackupAndApplyOutcome(c: Composer, candidates: seq<Plugin>, env: Env)
    ensures env.zipLines < 3 ==>
      BackupAndApply(c, candidates, env) == Run(Failure(BackupFailed(BackupFilePath(env.stamp))), [BackupOf(c.config.oxideFolder, env)])
    ensures (BackupAndApply(c, candidates, env).result.Failure? &&
             BackupAndApply(c, candidates, env).result.error != SaveFailed(InstalledFilePath())) ==>
      NoLedgerSave(BackupAndApply(c, candidates, env).trace)
    ensures BackupAndApply(c, candidates, env).result.Success? ==>
      && BackupAndApply(c, candidates, env).result.value == Updated(Ids(candidates))
      && var t := BackupAndApply(c, candidates, env).trace;
      && t[|t| - 1].SaveLedger?
      && Apply(candidates, c.ledger, c.config.oxideFolder, env).result.Success?
      && t[|t| - 1].ledger == Apply(candidates, c.ledger, c.config.oxideFolder, env).result.value
  {
    ApplyOnlyInstalls(candidates, c.ledger, c.config.oxideFolder, env);
  }

  /** The plugins the backup-and-apply half writes are a prefix of the candidates, all of them on success. */
  lemma BackupAndApplyWrites(c: Composer, candidates: seq<Plugin>, env: Env)
    ensures WrittenIds(BackupAndApply(c, candidates, env).trace) <= Ids(candidates)
    ensures BackupAndApply(c, candidates, env).result.Success? ==>
      WrittenIds(BackupAndApply(c, candidates, env).trace) == Ids(candidates)
  {
    var backup := BackupOf(c.config.oxideFolder, env);
    var applied := Apply(candidates, c.ledger, c.config.oxideFolder, env);
    ApplyTouchesPrefix(candidates, c.ledger, c.config.oxideFolder, env);
    ApplyWritesAll(candidates, c.ledger, c.config.oxideFolder, env);
    assert WrittenIds([backup]) == [] + WrittenIds([]);
    if env.zipLines >= 3 {
      WrittenIdsAppend([backup], applied.trace);
      if applied.result.Success? {
        var save := [SaveLedger(applied.result.value)];
        assert WrittenIds(save) == [] + WrittenIds([]);
        WrittenIdsAppend([backup] + applied.trace, save);
      }
    }
  }

  /** A read-only prefix changes nothing about what a trace writes or saves. */
  lemma ReadOnlyThen(a: seq<Effect>, b: seq<Effect>)
    requires AllReadOnly(a)
    ensures WrittenIds(a + b) == WrittenIds(b)
    ensures forall i :: 0 <= i < |a + b| && !ReadOnly((a + b)[i]) ==> |a| <= i && (a + b)[i] == b[i - |a|]
  {
    ReadOnlyTouchesNothing(a);
    WrittenIdsAppend(a, b);
  }

  /**
   * An update is "up to date" exactly when signing in works and the
   * selection finds no candidate, and then it only signs in and reads pages.
   */
  lemma UpdateUpToDateTouchesNothing(c: Composer, env: Env)
    ensures Update(c, env).result == Success(UpToDate) <==>
      SignInWith(c.config, env).result.Success? && Select(c.config.plugins, c.ledger, env).result == Success([])
    ensures Update(c, env).result == Success(UpToDate) ==> AllReadOnly(Update(c, env).trace)
  {
    CheckReadsOnly(c, env);
    UpdateHalves(c, env);
    if Proceeds(c, env) {
      BackupAndApplyOutcome(c, CheckForUpdates(c, env).result.value, env);
    }
  }

  /** The backup-and-apply half makes exactly one backup, before anything it changes. */
  lemma BackupAndApplyBacksUpFirst(c: Composer, candidates: seq<Plugin>, env: Env)
    ensures HasBackup(BackupAndApply(c, candidates, env).trace)
    ensures BackupPrecedesChanges(BackupAndApply(c, candidates, env).trace)
    ensures AtMostOneBackup(BackupAndApply(c, candidates, env).trace)
  {
    var t := BackupAndApply(c, candidates, env).trace;
    BackupAndApplyShape(c, candidates, env);
    assert t[0].Backup?;
    forall i | 0 <= i < |t| && TouchesPlugins(t[i])
      ensures exists j :: 0 <= j < i && t[j].Backup?
    {
      assert 0 < i;
    }
  }

  /** A read-only prefix neither makes a backup nor changes anything. */
  lemma ReadOnlyThenBackups(a: seq<Effect>, b: seq<Effect>)
    requires AllReadOnly(a)
    ensures HasBackup(a + b) <==> HasBackup(b)
    ensures BackupPrecedesChanges(b) ==> BackupPrecedesChanges(a + b)
    ensures AtMostOneBackup(b) ==> AtMostOneBackup(a + b)
  {
    var t := a + b;
    var n := |a|;
    assert forall i :: n <= i < |t| ==> t[i] == b[i - n];
    assert forall i :: 0 <= i < n ==> t[i] == a[i];
    if HasBackup(b) {
      var j :| 0 <= j < |b| && b[j].Backup?;
      assert t[j + n].Backup?;
    }
    if BackupPrecedesChanges(b) {
      forall i | 0 <= i < |t| && TouchesPlugins(t[i])
        ensures exists j :: 0 <= j < i && t[j].Backup?
      {
        var j :| 0 <= j < i - n && b[j].Backup?;
        assert t[j + n].Backup?;
      }
    }
  }

  /**
   * Every download, plugin write or ledger save in an update comes after its
   * backup, and an update makes at most one backup; it makes one exactly
   * when signing in works and the selection finds a candidate.
   */
  lemma UpdateBacksUpFirst(c: Composer, env: Env)
    ensures BackupPrecedesChanges(Update(c, env).trace)
    ensures AtMostOneBackup(Update(c, env).trace)
    ensures HasBackup(Update(c, env).trace) <==>
      && SignInWith(c.config, env).result.Success?
      && Select(c.config.plugins, c.ledger, env).result.Success?
      && |Select(c.config.plugins, c.ledger, env).result.value| > 0
  {
    var a := CheckForUpdates(c, env).trace;
    CheckReadsOnly(c, env);
    UpdateHalves(c, env);
    if Proceeds(c, env) {
      var b := BackupAndApply(c, CheckForUpdates(c, env).result.value, env).trace;
      BackupAndApplyBacksUpFirst(c, CheckForUpdates(c, env).result.value, env);
      ReadOnlyThenBackups(a, b);
    } else {
      ReadOnlyThenBackups(a, []);
      assert a + [] == a;
    }
  }

  /**
   * When `zip` prints fewer than three lines, the update downloads and
   * writes nothing and saves no ledger; if it got as far as the backup, it
   * fails with the backup's path and the backup is its last call.
   */
  lemma UpdateBackupGate(c: Composer, env: Env)
    requires env.zipLines < 3
    ensures Untouched(Update(c, env).trace)
    ensures HasBackup(Update(c, env).trace) ==>
      && Update(c, env).result == Failure(BackupFailed(BackupFilePath(env.stamp)))
      && Update(c, env).trace[|Update(c, env).trace| - 1].Backup?
  {
    CheckReadsOnly(c, env);
    UpdateHalves(c, env);
    if Proceeds(c, env) {
      BackupAndApplyOutcome(c, CheckForUpdates(c, env).result.value, env);
    }
  }

  /**
   * The update writes a prefix of the candidates, in order, and all of them
   * when it reports them updated; when the check fails it writes nothing.
   */
  lemma UpdateWritesCandidatePrefix(c: Composer, env: Env)
    ensures CheckForUpdates(c, env).result.Success? ==>
      WrittenIds(Update(c, env).trace) <= Ids(CheckForUpdates(c, env).result.value)
    ensures CheckForUpdates(c, env).result.Failure? ==> WrittenIds(Update(c, env).trace) == []
    ensures Update(c, env).result.Success? && Update(c, env).result.value.Updated? ==>
      && CheckForUpdates(c, env).result.Success?
      && WrittenIds(Update(c, env).trace) == Ids(CheckForUpdates(c, env).result.value)
      && Update(c, env).result.value.ids == Ids(CheckForUpdates(c, env).result.value)
  {
    var a := CheckForUpdates(c, env).trace;
    CheckReadsOnly(c, env);
    UpdateHalves(c, env);
    ReadOnlyTouchesNothing(a);
    if Proceeds(c, env) {
      var cands := CheckForUpdates(c, env).result.value;
      BackupAndApplyWrites(c, cands, env);
      BackupAndApplyOutcome(c, cands, env);
      ReadOnlyThen(a, BackupAndApply(c, cands, env).trace);
    }
  }

  /**
   * A ledger save is the last call of an update, and the ledger it saves is
   * the one the apply loop built from the loaded ledger; a failed update
   * saves no ledger unless that save is itself what failed.
   */
  lemma UpdateSavesLedgerLast(c: Composer, env: Env)
    ensures LedgerSavedLast(Update(c, env).trace)
    ensures forall i :: 0 <= i < |Update(c, env).trace| && Update(c, env).trace[i].SaveLedger? ==>
      && CheckForUpdates(c, env).result.Success?
      && Apply(CheckForUpdates(c, env).result.value, c.ledger, c.config.oxideFolder, env).result.Success?
      && Update(c, env).trace[i].ledger ==
         Apply(CheckForUpdates(c, env).result.value, c.ledger, c.config.oxideFolder, env).result.value
    ensures Update(c, env).result.Failure? && Update(c, env).result.error != SaveFailed(InstalledFilePath()) ==>
      NoLedgerSave(Update(c, env).trace)
  {
    var t := Update(c, env).trace;
    var a := CheckForUpdates(c, env).trace;
    CheckReadsOnly(c, env);
    UpdateHalves(c, env);
    if Proceeds(c, env) {
      var cands := CheckForUpdates(c, env).result.value;
      var b := BackupAndApply(c, cands, env).trace;
      BackupAndApplyShape(c, cands, env);
      BackupAndApplyOutcome(c, cands, env);
      ReadOnlyThen(a, b);
      assert t == a + b;
      forall i | 0 <= i < |t| && t[i].SaveLedger?
        ensures && i == |t| - 1
                && Apply(cands, c.ledger, c.config.oxideFolder, env).result.Success?
                && t[i].ledger == Apply(cands, c.ledger, c.config.oxideFolder, env).result.value
      {
        assert t[i] == b[i - |a|];
      }
    }
  }

  /**
   * A successful update that applied something ends by saving the ledger it
   * built: the candidates carry the site's versions, their first-install
   * time is kept (or set now for a new entry), and no other entry changes.
   */
  lemma UpdateSavesAppliedLedger(c: Composer, env: Env)
    requires UniqueIds(c.config.plugins)
    ensures Update(c, env).result.Success? && Update(c, env).result.value.Updated? ==>
      && CheckForUpdates(c, env).result.Success?
      && Update(c, env).trace[|Update(c, env).trace| - 1].SaveLedger?
      && RecordsAll(c.ledger, CheckForUpdates(c, env).result.value, env.now,
                    Update(c, env).trace[|Update(c, env).trace| - 1].ledger)
  {
    CheckReadsOnly(c, env);
    UpdateHalves(c, env);
    if Proceeds(c, env) {
      var cands := CheckForUpdates(c, env).result.value;
      BackupAndApplyOutcome(c, cands, env);
      SelectDistinct(c.config.plugins, c.ledger, env);
      ApplyRecordsCandidates(cands, c.ledger, c.config.oxideFolder, env);
    }
  }

  /** Every candidate's id is listed in the manifest. */
  lemma SelectedWithinManifest(plugins: Manifest, ledger: Ledger, env: Env)
    requires Select(plugins, ledger, env).result.Success?
    ensures IdSet(Select(plugins, ledger, env).result.value) <= ManifestIds(plugins)
  {
    var cands := Select(plugins, ledger, env).result.value;
    SelectSound(plugins, ledger, env);
    forall x | x in IdSet(cands)
      ensures x in ManifestIds(plugins)
    {
      var m :| 0 <= m < |cands| && cands[m].id == x;
      assert IsWanted(plugins, ledger, env, cands[m]);
      var j :| WantedAt(plugins, ledger, env, cands[m], j);
      assert plugins[j].0 == x;
    }
  }

  /** An update saves no ledger id that the manifest does not list, given a ledger within the manifest. */
  lemma UpdateKeepsLedgerWithinManifest(c: Composer, env: Env)
    requires c.ledger.Keys <= ManifestIds(c.config.plugins)
    ensures forall i :: 0 <= i < |Update(c, env).trace| && Update(c, env).trace[i].SaveLedger? ==>
      Update(c, env).trace[i].ledger.Keys <= ManifestIds(c.config.plugins)
  {
    UpdateSavesLedgerLast(c, env);
    CheckReadsOnly(c, env);
    if CheckForUpdates(c, env).result.Success? {
      SelectedWithinManifest(c.config.plugins, c.ledger, env);
      ApplyKeys(CheckForUpdates(c, env).result.value, c.ledger, c.config.oxideFolder, env);
    }
  }

  // ---------------------------------------------------------------------
  // install
  // ---------------------------------------------------------------------

  /**
   * A successful install signs in, reads the plugin's page, downloads and
   * writes it, then saves the manifest with the id added (major releases not
   * allowed) and only then the ledger with the plugin recorded.
   */
  lemma InstallSequence(c: Composer, id: PluginId, env: Env)
    ensures Install(c, id, env).result.Success? ==>
      && !Listed(c.config.plugins, id)
      && GetPlugin(env, id).Success?
      && (id, GetPlugin(env, id).value.download) in env.payloads
      && var p := GetPlugin(env, id).value;
      && var payload := env.payloads[(id, p.download)];
      && var t := Install(c, id, env).trace;
      && |t| == 6
      && t[0] == SignIn
      && t[1] == Fetch(id)
      && t[2] == Download(id)
      && t[3] == Write(id, PluginFilePath(c.config.oxideFolder, payload.file), payload.content)
      && t[4] == SaveConfig(c.config.(plugins := c.config.plugins + [(id, false)]))
      && t[5].SaveLedger?
      && RecordsAll(c.ledger, [p], env.now, t[5].ledger)
  {
    var r := Install(c, id, env);
    if r.result.Success? {
      IdSetSingleton(GetPlugin(env, id).value);
    }
  }

  /** Install saves the manifest only after the plugin was written, and the ledger only after the manifest. */
  lemma InstallSavesAfterWrite(c: Composer, id: PluginId, env: Env)
    ensures forall i :: 0 <= i < |Install(c, id, env).trace| && Install(c, id, env).trace[i].SaveConfig? ==>
      0 < i && Install(c, id, env).trace[i - 1].Write?
    ensures forall i :: 0 <= i < |Install(c, id, env).trace| && Install(c, id, env).trace[i].SaveLedger? ==>
      0 < i && Install(c, id, env).trace[i - 1].SaveConfig?
  {
    var r := Install(c, id, env);
    if !Listed(c.config.plugins, id) {
      var config := c.config.(plugins := c.config.plugins + [(id, false)]);
      var login := SignInWith(config, env);
      if login.result.Success? && GetPlugin(env, id).Success? {
        var p := GetPlugin(env, id).value;
        var inst := InstallPlugin(p, c.ledger, config.oxideFolder, env);
        if inst.result.Success? {
          var w := inst.trace[1];
          var prefix := [SignIn, Fetch(id), Download(id), w];
          assert login.trace + [Fetch(id)] + inst.trace == prefix;
          assert r.trace == prefix + [SaveConfig(config)]
              || r.trace == prefix + [SaveConfig(config)] + [SaveLedger(inst.result.value)];
        }
      }
    }
  }

  /**
   * An install saves the manifest only once the plugin was fetched and
   * installed, and the ledger only once the manifest was saved.
   */
  lemma InstallSavesOnlyAfterSuccess(c: Composer, id: PluginId, env: Env)
    ensures (exists i :: 0 <= i < |Install(c, id, env).trace| && Install(c, id, env).trace[i].SaveConfig?) ==>
      && GetPlugin(env, id).Success?
      && InstallPlugin(GetPlugin(env, id).value, c.ledger, c.config.oxideFolder, env).result.Success?
    ensures (exists i :: 0 <= i < |Install(c, id, env).trace| && Install(c, id, env).trace[i].SaveLedger?) ==>
      ComposerFile !in env.unwritable
  {
  }

  /** An install keeps every ledger id listed in the manifest it saves, and keeps manifest ids unique. */
  lemma InstallKeepsLedgerWithinManifest(c: Composer, id: PluginId, env: Env)
    requires c.ledger.Keys <= ManifestIds(c.config.plugins) && UniqueIds(c.config.plugins)
    ensures Install(c, id, env).result.Success? ==>
      && Install(c, id, env).trace[4].SaveConfig?
      && Install(c, id, env).trace[5].SaveLedger?
      && Install(c, id, env).trace[5].ledger.Keys <= ManifestIds(Install(c, id, env).trace[4].config.plugins)
      && UniqueIds(Install(c, id, env).trace[4].config.plugins)
  {
    var r := Install(c, id, env);
    InstallSequence(c, id, env);
    if r.result.Success? {
      var plugins := c.config.plugins + [(id, false)];
      assert plugins[|c.config.plugins|].0 == id;
      IdSetSingleton(GetPlugin(env, id).value);
      forall x | x in ManifestIds(c.config.plugins)
        ensures x in ManifestIds(plugins)
      {
        var i :| 0 <= i < |c.config.plugins| && c.config.plugins[i].0 == x;
        assert plugins[i] == c.config.plugins[i];
      }
    }
  }

  // ---------------------------------------------------------------------
  // Paths
  // ---------------------------------------------------------------------

  /** Backups taken at different times never overwrite each other, the ledger or the manifest. */
  lemma BackupPathsDistinct(a: string, b: string)
    ensures BackupFilePath(a) == BackupFilePath(b) ==> a == b
    ensures BackupFilePath(a) != InstalledFilePath() && BackupFilePath(a) != ComposerFile
  {
    var p := BackupFilePath(a);
    assert InstalledFilePath()[19..] == "json";
    assert p[|p| - 4..] == ".zip";
  }

  /** Different file names land on different plugin paths. */
  lemma PluginPathsDistinct(oxideFolder: string, a: string, b: string)
    ensures PluginFilePath(oxideFolder, a) == PluginFilePath(oxideFolder, b) ==> a == b
  {
  }
}
