/**
 * The plugin manager's orchestration: loading the manifest (ocomposer.json)
 * and the ledger (composer/installed.json), installing one plugin, and the
 * update pass with its candidate selection, backup gate and apply loop.
 *
 * Every collaborator the source talks to (the plugin site, the file system,
 * `zip`, the clock) is an input bundled in `Env`, and every call the source
 * makes on one of them is recorded, in order, as an `Effect`. A call that
 * fails ends the operation, so it is the last effect of its trace; the ledger
 * that reaches the disk is the one carried by a `SaveLedger` effect of a run
 * that succeeded.
 */
module OxideComposer {
  import opened Results
  import opened Utils

  type PluginId = string

  /** The manifest's plugin list in file order: the id and whether major releases may be applied. */
  type Manifest = seq<(PluginId, bool)>

  /** The manifest's `login` object; either field may be missing. */
  datatype Credentials = Credentials(user: Option<string>, password: Option<string>)

  /** ocomposer.json. */
  datatype Config = Config(login: Option<Credentials>, oxideFolder: string, plugins: Manifest)

  /** One ledger entry: the installed version and when the plugin was first installed. */
  datatype Entry = Entry(version: seq<Part>, time: string)

  /** composer/installed.json. */
  type Ledger = map<PluginId, Entry>

  /** What the plugin's page yields: the advertised version and the download id, each if found. */
  datatype Page = Page(version: Option<seq<nat>>, download: Option<nat>)

  /** A plugin as the site describes it. */
  datatype Plugin = Plugin(id: PluginId, version: seq<nat>, download: nat)

  /** A downloaded plugin: the body and the file name taken from the response headers. */
  datatype Payload = Payload(content: string, file: string)

  /**
   * The answers of the collaborators.
   * - `pages`: an id that is absent is one the site reports as not found;
   * - `payloads`: keyed by plugin id and download id, absent when the download returned nothing;
   * - `unwritable`: the paths a file write fails on;
   * - `zipLines`: how many lines `zip` printed;
   * - `now` and `stamp`: the clock, formatted as `Y-m-d H:i:s` and `Y_m_d__H_i_s`.
   */
  datatype Env = Env(
    loginAccepted: bool,
    pages: map<PluginId, Page>,
    payloads: map<(PluginId, nat), Payload>,
    unwritable: set<string>,
    zipLines: nat,
    now: string,
    stamp: string)

  /** The exceptions the source throws, one per message. */
  datatype Error =
    | ConfigNotFound
    | FolderNotCreated
    | ZipMissing
    | ConfigInvalid
    | LedgerInvalid
    | SaveFailed(path: string)
    | LoginMissing
    | LoginFailed
    | AlreadyInstalled
    | PluginNotFound(id: PluginId)
    | VersionNotFound(id: PluginId)
    | DownloadIdNotFound(id: PluginId)
    | DownloadFailed(id: PluginId)
    | WriteFailed(path: string)
    | BackupFailed(path: string)

  /** One call on a collaborator. */
  datatype Effect =
    | SignIn
    | Fetch(id: PluginId)
    | Download(id: PluginId)
    | Backup(archive: string, source: string, excluded: string)
    | Write(id: PluginId, path: string, content: string)
    | SaveConfig(config: Config)
    | SaveLedger(ledger: Ledger)

  /** What an operation returned, and the calls it made on the way. */
  datatype Run<T> = Run(result: Result<T, Error>, trace: seq<Effect>)

  /** A loaded manager: the manifest and the in-memory ledger. */
  datatype Composer = Composer(config: Config, ledger: Ledger)

  /** A JSON file as the constructor finds it. */
  datatype JsonFile<T> = Missing | Unparsable | Parsed(value: T)

  /** The state of the working directory when the manager starts. */
  datatype Disk = Disk(
    config: JsonFile<Config>,
    folderExists: bool,
    folderCreatable: bool,
    zipInstalled: bool,
    ledger: JsonFile<Ledger>)

  /** What an update pass reports on success. */
  datatype Done = UpToDate | Updated(ids: seq<PluginId>)

  const ComposerFile: string := "ocomposer.json"
  const ComposerFolder: string := "composer/"
  const InstalledFile: string := "installed.json"

  /** `x` between the fixed texts `a` and `b`. */
  function Around(a: string, x: string, b: string): (m: string)
    ensures Contains(m, x)
  {
    ContainsInfix(a, x, b);
    a + x + b
  }

  /** The file, folder or plugin an error is about, if any. */
  function Subject(e: Error): Option<string>
  {
    match e
    case ConfigNotFound => Some(ComposerFile)
    case FolderNotCreated => Some(ComposerFolder)
    case ConfigInvalid => Some(ComposerFile)
    case LedgerInvalid => Some(InstalledFilePath())
    case SaveFailed(path) => Some(path)
    case PluginNotFound(id) => Some(id)
    case VersionNotFound(id) => Some(id)
    case DownloadIdNotFound(id) => Some(id)
    case DownloadFailed(id) => Some(id)
    case WriteFailed(path) => Some(path)
    case BackupFailed(path) => Some(path)
    case _ => None
  }

  /** The text of each exception; it names the file, folder or plugin the error is about. */
  function Message(e: Error): (m: string)
    ensures Subject(e).Some? ==> Contains(m, Subject(e).value)
  {
    match e
    case ConfigNotFound => Around("", ComposerFile, " not found")
    case FolderNotCreated => Around("Could not create the required folder ", ComposerFolder, "")
    case ZipMissing => "Missing required zip dependency"
    case ConfigInvalid => Around("Invalid ", ComposerFile, " | Fix it in http://json.parser.online.fr")
    case LedgerInvalid => Around("Invalid ", InstalledFilePath(), " | Fix it in http://json.parser.online.fr")
    case SaveFailed(path) => Around("Could not create/update ", path, "")
    case LoginMissing => "Missing required oxide login params"
    case LoginFailed => "Login failed"
    case AlreadyInstalled => "Plugin already installed"
    case PluginNotFound(id) => Around("Plugin ", id, " not found")
    case VersionNotFound(id) => Around("Couldn't get ", id, " version")
    case DownloadIdNotFound(id) => Around("Couldn't get ", id, " downloadId")
    case DownloadFailed(id) => Around("Failed to download ", id, "")
    case WriteFailed(path) => Around("Couldn't write ", path, "")
    case BackupFailed(path) => Around("Could not create the backup ", path, "")
  }

  // ---------------------------------------------------------------------
  // Paths
  // ---------------------------------------------------------------------

  /** `getInstalledFilePath`. */
  function InstalledFilePath(): (p: string)
    ensures p == "composer/installed.json"
  {
    ComposerFolder + InstalledFile
  }

  /** `getBackupFilePath(date)`: the date between the backups folder and the `.zip` extension. */
  function BackupFilePath(date: string): (p: string)
    ensures |p| == |date| + 21
    ensures p[..17] == "composer/backups/"
    ensures p[17..|p| - 4] == date
    ensures p[|p| - 4..] == ".zip"
  {
    ComposerFolder + "backups/" + date + ".zip"
  }

  /** Where a plugin file is written: the file name under the server's plugins folder. */
  function PluginFilePath(oxideFolder: string, file: string): (p: string)
    ensures |p| == |oxideFolder| + 8 + |file|
    ensures p[..|oxideFolder|] == oxideFolder
    ensures p[|oxideFolder|..|oxideFolder| + 8] == "plugins/"
    ensures p[|oxideFolder| + 8..] == file
  {
    oxideFolder + "plugins/" + file
  }

  // ---------------------------------------------------------------------
  // Loading
  // ---------------------------------------------------------------------

  /** `getInstalledPlugins`: a missing ledger file is an empty ledger. */
  function ReadLedger(f: JsonFile<Ledger>): (r: Result<Ledger, Error>)
    ensures r.Failure? <==> f.Unparsable?
    ensures r.Failure? ==> r.error == LedgerInvalid
    ensures f.Missing? ==> r == Success(map[])
  {
    match f
    case Missing => Success(map[])
    case Unparsable => Failure(LedgerInvalid)
    case Parsed(l) => Success(l)
  }

  /**
   * The constructor: the manifest must exist, the composer folder must exist
   * or be creatable, `zip` must be installed, the manifest must parse and the
   * ledger must parse if present. The checks run in that order.
   */
  function Open(d: Disk): (r: Result<Composer, Error>)
    ensures r.Success? <==>
      d.config.Parsed? && (d.folderExists || d.folderCreatable) && d.zipInstalled && !d.ledger.Unparsable?
    ensures r.Success? ==> r.value.config == d.config.value
    ensures r.Success? ==> r.value.ledger == if d.ledger.Parsed? then d.ledger.value else map[]
    ensures d.config.Missing? ==> r == Failure(ConfigNotFound)
    ensures !d.config.Missing? && !d.folderExists && !d.folderCreatable ==> r == Failure(FolderNotCreated)
    ensures !d.config.Missing? && (d.folderExists || d.folderCreatable) && !d.zipInstalled ==> r == Failure(ZipMissing)
    ensures r.Failure? && !d.config.Missing? && (d.folderExists || d.folderCreatable) && d.zipInstalled ==>
      r.error == (if d.config.Unparsable? then ConfigInvalid else LedgerInvalid)
  {
    if d.config.Missing? then Failure(ConfigNotFound)
    else if !d.folderExists && !d.folderCreatable then Failure(FolderNotCreated)
    else if !d.zipInstalled then Failure(ZipMissing)
    else if d.config.Unparsable? then Failure(ConfigInvalid)
    else
      match ReadLedger(d.ledger)
      case Failure(e) => Failure(e)
      case Success(l) => Success(Composer(d.config.value, l))
  }

  // ---------------------------------------------------------------------
  // Collaborators
  // ---------------------------------------------------------------------

  /** The manifest has a `login` object with both a user and a password. */
  predicate HasLogin(config: Config)
  {
    config.login.Some? && config.login.value.user.Some? && config.login.value.password.Some?
  }

  /** `initOxide`: fails without calling anything when a login field is missing. */
  function SignInWith(config: Config, env: Env): (r: Run<()>)
    ensures r.result.Success? <==> HasLogin(config) && env.loginAccepted
    ensures !HasLogin(config) ==> r == Run(Failure(LoginMissing), [])
    ensures HasLogin(config) ==> r.trace == [SignIn] && (r.result.Failure? ==> r.result.error == LoginFailed)
  {
    if !HasLogin(config) then
      Run(Failure(LoginMissing), [])
    else if !env.loginAccepted then Run(Failure(LoginFailed), [SignIn])
    else Run(Success(()), [SignIn])
  }

  /** `getPlugin(id)`: the site's description of one plugin. */
  function GetPlugin(env: Env, id: PluginId): (r: Result<Plugin, Error>)
  {
    if id !in env.pages then Failure(PluginNotFound(id))
    else if env.pages[id].version.None? then Failure(VersionNotFound(id))
    else if env.pages[id].download.None? then Failure(DownloadIdNotFound(id))
    else Success(Plugin(id, env.pages[id].version.value, env.pages[id].download.value))
  }

  /** PHP's `empty` on a string: the empty string and "0". */
  predicate Blank(s: string)
  {
    s == "" || s == "0"
  }

  /** Writes a JSON document; the write either succeeds or fails as a whole. */
  function Save(path: string, effect: Effect, env: Env): (r: Run<()>)
  {
    Run(if path in env.unwritable then Failure(SaveFailed(path)) else Success(()), [effect])
  }

  // ---------------------------------------------------------------------
  // Installing one plugin
  // ---------------------------------------------------------------------

  /** The ledger after `p` was written: the version follows the site, the time is kept once set. */
  function Record(ledger: Ledger, p: Plugin, now: string): (l: Ledger)
    ensures l.Keys == ledger.Keys + {p.id}
    ensures l[p.id] == Entry(AsInstalled(p.version), if p.id in ledger then ledger[p.id].time else now)
    ensures forall k :: k in ledger && k != p.id ==> l[k] == ledger[k]
  {
    if p.id in ledger then ledger[p.id := ledger[p.id].(version := AsInstalled(p.version))]
    else ledger[p.id := Entry(AsInstalled(p.version), now)]
  }

  /** The download for `p` exists and neither its body nor its file name is empty. */
  predicate Downloadable(p: Plugin, env: Env)
  {
    (p.id, p.download) in env.payloads
    && !Blank(env.payloads[(p.id, p.download)].content)
    && !Blank(env.payloads[(p.id, p.download)].file)
  }

  /**
   * `installPlugin`: download the plugin, write it, and record it in the
   * in-memory ledger. The ledger changes only for `p`, and only once the
   * file is written.
   */
  function InstallPlugin(p: Plugin, ledger: Ledger, oxideFolder: string, env: Env): (r: Run<Ledger>)
    ensures r.result.Success? <==>
      Downloadable(p, env)
      && PluginFilePath(oxideFolder, env.payloads[(p.id, p.download)].file) !in env.unwritable
    ensures !Downloadable(p, env) ==> r == Run(Failure(DownloadFailed(p.id)), [Download(p.id)])
    ensures Downloadable(p, env) ==>
      var payload := env.payloads[(p.id, p.download)];
      r.trace == [Download(p.id), Write(p.id, PluginFilePath(oxideFolder, payload.file), payload.content)]
    ensures r.result.Failure? ==> r.result.error == DownloadFailed(p.id) || r.result.error.WriteFailed?
    ensures r.result.Success? ==> r.result.value.Keys == ledger.Keys + {p.id}
    ensures r.result.Success? ==> r.result.value[p.id].version == AsInstalled(p.version)
    ensures r.result.Success? ==>
      r.result.value[p.id].time == if p.id in ledger then ledger[p.id].time else env.now
    ensures r.result.Success? ==> forall k :: k in ledger && k != p.id ==> r.result.value[k] == ledger[k]
  {
    var key := (p.id, p.download);
    if key !in env.payloads || Blank(env.payloads[key].content) || Blank(env.payloads[key].file) then
      Run(Failure(DownloadFailed(p.id)), [Download(p.id)])
    else
      var payload := env.payloads[key];
      var path := PluginFilePath(oxideFolder, payload.file);
      var trace := [Download(p.id), Write(p.id, path, payload.content)];
      if path in env.unwritable then Run(Failure(WriteFailed(path)), trace)
      else Run(Success(Record(ledger, p, env.now)), trace)
  }

  // ---------------------------------------------------------------------
  // install
  // ---------------------------------------------------------------------

  /** The manifest lists `id`. */
  predicate Listed(plugins: Manifest, id: PluginId)
  {
    exists i :: 0 <= i < |plugins| && plugins[i].0 == id
  }

  /** `install(id)`: an id the manifest already lists is refused before anything is called. */
  function Install(c: Composer, id: PluginId, env: Env): (r: Run<()>)
    ensures Listed(c.config.plugins, id) ==> r == Run(Failure(AlreadyInstalled), [])
  {
    if Listed(c.config.plugins, id) then Run(Failure(AlreadyInstalled), [])
    else
      var config := c.config.(plugins := c.config.plugins + [(id, false)]);
      var login := SignInWith(config, env);
      if login.result.Failure? then login
      else
        match GetPlugin(env, id)
        case Failure(e) => Run(Failure(e), login.trace + [Fetch(id)])
        case Success(p) =>
          var inst := InstallPlugin(p, c.ledger, config.oxideFolder, env);
          var trace := login.trace + [Fetch(id)] + inst.trace;
          if inst.result.Failure? then Run(Failure(inst.result.error), trace)
          else
            var saveConfig := Save(ComposerFile, SaveConfig(config), env);
            if saveConfig.result.Failure? then Run(saveConfig.result, trace + saveConfig.trace)
            else
              var saveLedger := Save(InstalledFilePath(), SaveLedger(inst.result.value), env);
              Run(saveLedger.result, trace + saveConfig.trace + saveLedger.trace)
  }

  // ---------------------------------------------------------------------
  // update
  // ---------------------------------------------------------------------

  /** Whether a plugin the site describes becomes an update candidate. */
  predicate Wanted(p: Plugin, allowMajor: bool, ledger: Ledger)
  {
    p.id !in ledger ||
    match IsGreater(p.version, ledger[p.id].version)
    case NotGreater => false
    case Minor => true
    case Major => allowMajor
  }

  /** The selection loop of `update`: every manifest plugin is fetched in order, the wanted ones kept. */
  function Select(plugins: Manifest, ledger: Ledger, env: Env): (r: Run<seq<Plugin>>)
    ensures |r.trace| <= |plugins|
    ensures forall i :: 0 <= i < |r.trace| ==> r.trace[i].Fetch?
    ensures r.result.Success? ==> |r.trace| == |plugins| && |r.result.value| <= |plugins|
    decreases |plugins|
  {
    if plugins == [] then Run(Success([]), [])
    else
      var id := plugins[0].0;
      match GetPlugin(env, id)
      case Failure(e) => Run(Failure(e), [Fetch(id)])
      case Success(p) =>
        var rest := Select(plugins[1..], ledger, env);
        var picked := if Wanted(p, plugins[0].1, ledger) then [p] else [];
        var result := match rest.result
          case Success(ps) => Success(picked + ps)
          case Failure(e) => Failure(e);
        Run(result, [Fetch(id)] + rest.trace)
  }

  /** The apply loop of `update`: the candidates are installed in order, stopping at the first failure. */
  function Apply(candidates: seq<Plugin>, ledger: Ledger, oxideFolder: string, env: Env): (r: Run<Ledger>)
    ensures |r.trace| <= 2 * |candidates|
    ensures r.result.Success? ==> |r.trace| == 2 * |candidates|
    decreases |candidates|
  {
    if candidates == [] then Run(Success(ledger), [])
    else
      var first := InstallPlugin(candidates[0], ledger, oxideFolder, env);
      match first.result
      case Failure(e) => first
      case Success(l) =>
        var rest := Apply(candidates[1..], l, oxideFolder, env);
        Run(rest.result, first.trace + rest.trace)
  }

  /** The ids of some plugins, in order. */
  function Ids(ps: seq<Plugin>): (ids: seq<PluginId>)
    ensures |ids| == |ps|
    ensures forall i :: 0 <= i < |ps| ==> ids[i] == ps[i].id
  {
    seq(|ps|, i requires 0 <= i < |ps| => ps[i].id)
  }

  /** The backup call: the server folder archived without its logs. */
  function BackupOf(oxideFolder: string, env: Env): (e: Effect)
  {
    Backup(BackupFilePath(env.stamp), oxideFolder, oxideFolder + "logs/*")
  }

  /** The first half of `update()`: sign in, then select the candidates. */
  function CheckForUpdates(c: Composer, env: Env): (r: Run<seq<Plugin>>)
    ensures (exists i :: 0 <= i < |r.trace| && r.trace[i].Fetch?) ==> SignInWith(c.config, env).result.Success?
  {
    var login := SignInWith(c.config, env);
    if login.result.Failure? then Run(Failure(login.result.error), login.trace)
    else
      var sel := Select(c.config.plugins, c.ledger, env);
      Run(sel.result, login.trace + sel.trace)
  }

  /** The second half of `update()`: back up the server folder, apply the candidates, save the ledger. */
  function BackupAndApply(c: Composer, candidates: seq<Plugin>, env: Env): (r: Run<Done>)
    ensures r.result.Success? ==> 3 <= env.zipLines && r.result.value == Updated(Ids(candidates))
  {
    var backup := BackupOf(c.config.oxideFolder, env);
    if env.zipLines < 3 then Run(Failure(BackupFailed(backup.archive)), [backup])
    else
      var applied := Apply(candidates, c.ledger, c.config.oxideFolder, env);
      if applied.result.Failure? then Run(Failure(applied.result.error), [backup] + applied.trace)
      else
        var save := Save(InstalledFilePath(), SaveLedger(applied.result.value), env);
        var result := if save.result.Failure? then Failure(save.result.error) else Success(Updated(Ids(candidates)));
        Run(result, [backup] + applied.trace + save.trace)
  }

  /** `update()`: with no candidate it stops before the backup. */
  function Update(c: Composer, env: Env): (r: Run<Done>)
    ensures r.result == Success(UpToDate) ==> r.trace == CheckForUpdates(c, env).trace
    ensures r.result.Success? && r.result.value.Updated? ==> 0 < |r.result.value.ids|
  {
    var checked := CheckForUpdates(c, env);
    match checked.result
    case Failure(e) => Run(Failure(e), checked.trace)
    case Success(candidates) =>
      if |candidates| == 0 then Run(Success(UpToDate), checked.trace)
      else
        var applied := BackupAndApply(c, candidates, env);
        Run(applied.result, checked.trace + applied.trace)
  }
}
