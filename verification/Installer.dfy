/**
 * Deployment and rollback of a release with restoration after any failure (infra/install-ehf.py). Any set of calls into
 * the operating system may fail, and a failing copy may leave anything in the file it was writing.
 */
module Installer {
  import opened Base

  datatype Path =
    | ServiceFile
    | NginxAvailable
    | NginxEnabled
    | Current
    | CurrentStaging
    | RestoreTemporary(of: Path)
    | Release(commit: string)
    | CommitMarker(commit: string)
    | UnitSource(commit: string)
    | SiteSource(commit: string)
    | Inside(directory: Path, name: string)
    | Elsewhere(name: string)

  datatype Node = Link(target: Path) | File(content: string, mode: nat, uid: nat, gid: nat) | Directory

  type FileSystem = map<Path, Node>

  /** Linux gives up following symbolic links after forty. */
  const MAX_LINKS: nat := 40

  const MANAGED: seq<Path> := [NginxEnabled, NginxAvailable, ServiceFile]

  predicate IsLink(fs: FileSystem, p: Path) {
    p in fs && fs[p].Link?
  }

  function Followed(fs: FileSystem, p: Path, hops: nat): Option<Path>
    decreases hops
  {
    if !IsLink(fs, p) then Some(p) else if hops == 0 then None else Followed(fs, fs[p].target, hops - 1)
  }

  /** The path behind all links, whether or not anything is there. */
  function Resolved(fs: FileSystem, p: Path): Option<Path> {
    Followed(fs, p, MAX_LINKS)
  }

  predicate Exists(fs: FileSystem, p: Path) {
    Resolved(fs, p).Some? && Resolved(fs, p).value in fs
  }

  /** Where `shutil.copy2` writes: behind the links, and inside a directory if one is there. */
  function Landing(fs: FileSystem, p: Path, name: string): Option<Path> {
    match Resolved(fs, p)
    case None => None
    case Some(q) => if q in fs && fs[q].Directory? then Resolved(fs, Inside(q, name)) else Some(q)
  }

  predicate HasMarker(fs: FileSystem, commit: string) {
    CommitMarker(commit) in fs && fs[CommitMarker(commit)].File? && fs[CommitMarker(commit)].content == commit
  }

  /** The release that `current` resolves to. */
  function CurrentRelease(fs: FileSystem): Option<string> {
    match Resolved(fs, Current)
    case Some(Release(commit)) => if Release(commit) in fs then Some(commit) else None
    case _ => None
  }

  // ------------------------------------------------------------------
  // Snapshots
  // ------------------------------------------------------------------

  datatype PathSnapshot = Absent | SymbolicLink(target: Path) | RegularFile(content: string, mode: nat, uid: nat, gid: nat)

  /** What a snapshot holds; a directory or special file cannot be snapshotted. */
  function SnapshotOf(fs: FileSystem, p: Path): Option<PathSnapshot> {
    if p !in fs then Some(Absent)
    else match fs[p]
      case Link(target) => Some(SymbolicLink(target))
      case File(content, mode, uid, gid) => Some(RegularFile(content, mode, uid, gid))
      case Directory => None
  }

  datatype Configuration = Configuration(service: PathSnapshot, available: PathSnapshot, enabled: PathSnapshot)

  function SnapshotIn(c: Configuration, p: Path): PathSnapshot
    requires p in MANAGED
  {
    if p == ServiceFile then c.service else if p == NginxAvailable then c.available else c.enabled
  }

  function Put(fs: FileSystem, p: Path, snapshot: PathSnapshot): FileSystem {
    match snapshot
    case Absent => fs - {p}
    case SymbolicLink(target) => fs[p := Link(target)]
    case RegularFile(content, mode, uid, gid) => fs[p := File(content, mode, uid, gid)]
  }

  /** Restoring a regular file goes by way of a temporary name, which is free afterwards. */
  function PutTidily(fs: FileSystem, p: Path, snapshot: PathSnapshot): FileSystem {
    if snapshot.RegularFile? then Put(fs, p, snapshot) - {RestoreTemporary(p)} else Put(fs, p, snapshot)
  }

  /** The same thing is at the path: the same bytes, mode and owner, the same link target, or nothing. */
  predicate SameAt(a: FileSystem, b: FileSystem, p: Path) {
    (p in a <==> p in b) && (p in a ==> a[p] == b[p])
  }

  lemma PutRestores(before: FileSystem, now: FileSystem, p: Path)
    requires SnapshotOf(before, p).Some?
    ensures SameAt(before, Put(now, p, SnapshotOf(before, p).value), p)
    ensures forall q :: q != p ==> SameAt(now, Put(now, p, SnapshotOf(before, p).value), q)
  {
  }

  // ------------------------------------------------------------------
  // What must hold of the host, and what the installer keeps
  // ------------------------------------------------------------------

  /** The link, the releases and the installer's own temporary names. */
  predicate ReleaseArea(p: Path) {
    p.Current? || p.CurrentStaging? || p.RestoreTemporary? || p.Release? || p.CommitMarker?
  }

  /** The links from `p` on never pass through a managed configuration path. */
  predicate AvoidsManaged(fs: FileSystem, p: Path, hops: nat)
    decreases hops
  {
    p !in MANAGED && (IsLink(fs, p) && hops > 0 ==> AvoidsManaged(fs, fs[p].target, hops - 1))
  }

  ghost predicate LandsOutside(fs: FileSystem, p: Path) {
    forall name :: Landing(fs, p, name).Some? ==> !ReleaseArea(Landing(fs, p, name).value)
  }

  /**
   * The link `current` is not itself routed through the managed configuration, no managed path is a link onto `current`
   * or into the release area, and none of the restorer's temporary names has been made a link. Leftovers of an
   * interrupted restoration may be there.
   */
  ghost predicate Sane(fs: FileSystem) {
    && AvoidsManaged(fs, Current, MAX_LINKS)
    && LandsOutside(fs, ServiceFile) && LandsOutside(fs, NginxAvailable)
    && (forall p :: p in MANAGED ==> !IsLink(fs, RestoreTemporary(p)))
  }

  /** Nothing in the release area changed but `current`, and no link outside the managed paths did. */
  ghost predicate Kept(a: FileSystem, b: FileSystem) {
    && (forall p :: ReleaseArea(p) && !p.Current? ==> SameAt(a, b, p))
    && (forall p :: p !in MANAGED && !p.Current? && (IsLink(a, p) || IsLink(b, p)) ==> SameAt(a, b, p))
  }

  /** One write through a configuration path: a regular file appeared or changed behind its links. */
  ghost predicate Wrote(a: FileSystem, b: FileSystem) {
    b == a || exists q, f :: WroteAt(a, b, q, f)
  }

  ghost predicate WroteAt(a: FileSystem, b: FileSystem, q: Path, f: Node) {
    f.File? && !IsLink(a, q) && !(q in a && a[q].Directory?) && !ReleaseArea(q) && b == a[q := f]
  }

  lemma {:induction false} SameLinksFollowed(a: FileSystem, b: FileSystem, p: Path, hops: nat)
    requires forall q :: IsLink(a, q) || IsLink(b, q) ==> SameAt(a, b, q)
    ensures Followed(a, p, hops) == Followed(b, p, hops)
    decreases hops
  {
    if IsLink(a, p) && hops > 0 { SameLinksFollowed(a, b, a[p].target, hops - 1); }
  }

  lemma WroteKeepsSane(a: FileSystem, b: FileSystem)
    requires Sane(a) && Wrote(a, b)
    ensures Sane(b) && Kept(a, b) && SameAt(a, b, Current)
  {
    if b != a {
      var q, f :| WroteAt(a, b, q, f);
      forall p, hops: nat ensures Followed(a, p, hops) == Followed(b, p, hops) { SameLinksFollowed(a, b, p, hops); }
      assert forall p, name :: Landing(a, p, name) == Landing(b, p, name);
      AvoidsStays(a, b, Current, MAX_LINKS);
    }
  }

  lemma {:induction false} AvoidsStays(a: FileSystem, b: FileSystem, p: Path, hops: nat)
    requires forall q :: q !in MANAGED && (IsLink(a, q) || IsLink(b, q)) ==> SameAt(a, b, q)
    requires AvoidsManaged(a, p, hops)
    ensures AvoidsManaged(b, p, hops) && Followed(a, p, hops) == Followed(b, p, hops)
    decreases hops
  {
    if IsLink(a, p) && hops > 0 { AvoidsStays(a, b, a[p].target, hops - 1); }
  }

  /** As long as `current` itself is the same, it resolves to the same release. */
  lemma SameRelease(a: FileSystem, b: FileSystem)
    requires AvoidsManaged(a, Current, MAX_LINKS) && Kept(a, b) && SameAt(a, b, Current)
    ensures CurrentRelease(a) == CurrentRelease(b) && AvoidsManaged(b, Current, MAX_LINKS)
  {
    AvoidsStays(a, b, Current, MAX_LINKS);
  }

  /** A managed path that is a regular file or absent. */
  predicate Plain(fs: FileSystem, p: Path) {
    p in fs ==> fs[p].File?
  }

  /** The file at the path is the source's content, owned by root and readable by all. */
  ghost predicate InstalledAt(before: FileSystem, fs: FileSystem, source: Path, p: Path) {
    && source in before && before[source].File?
    && p in fs && fs[p] == File(before[source].content, 0x1A4, 0, 0)
  }

  ghost predicate Installed(before: FileSystem, fs: FileSystem, commit: string) {
    && InstalledAt(before, fs, UnitSource(commit), ServiceFile)
    && InstalledAt(before, fs, SiteSource(commit), NginxAvailable)
    && IsLink(fs, NginxEnabled)
  }

  // ------------------------------------------------------------------
  // Which call into the operating system fails
  // ------------------------------------------------------------------

  datatype Call =
    | CheckSecrets
    | OpenFile(p: Path)
    | CopyFile(p: Path)
    | OwnFile(p: Path)
    | ModeFile(p: Path)
    | LinkSite
    | CheckSite
    | ReleaseTests
    | PrepareSwitch
    | StageLink
    | ReplaceLink
    | ReloadUnits
    | EnableUnit
    | SetUnit
    | AwaitReady
    | ReloadSite
    | RemovePath(p: Path)
    | PutLink(p: Path)
    | WriteBack(p: Path)
    | OwnBack(p: Path)
    | ModeBack(p: Path)
    | RenameBack(p: Path)

  /** The calls that fail, and what a copy that breaks off or a failed start leaves behind. */
  datatype Faults = Faults(calls: set<Call>, partial: string, halfway: nat, limbo: bool)

  function FileCalls(p: Path): set<Call> {
    {OpenFile(p), CopyFile(p), OwnFile(p), ModeFile(p)}
  }

  const SWITCH_CALLS: set<Call> := {PrepareSwitch, StageLink, ReplaceLink}

  const SERVICE_CALLS: set<Call> := {ReloadUnits, SetUnit, AwaitReady, ReloadSite}

  /** Calls in the course of installing the configuration; the link to the site is made only where there is none. */
  function ConfigurationCalls(linked: bool): set<Call> {
    {CheckSecrets, CheckSite} + FileCalls(ServiceFile) + FileCalls(NginxAvailable) + (if linked then {} else {LinkSite})
  }

  function DeployCalls(linked: bool): set<Call> {
    ConfigurationCalls(linked) + {ReleaseTests, EnableUnit} + SWITCH_CALLS + SERVICE_CALLS
  }

  function RollbackCalls(linked: bool): set<Call> {
    ConfigurationCalls(linked) + SWITCH_CALLS + SERVICE_CALLS
  }

  // ------------------------------------------------------------------
  // When nothing but a failing call stands in the way
  // ------------------------------------------------------------------

  /** The configuration can be put in place: sources present, regular files or nothing there, the site not linked elsewhere. */
  ghost predicate Configurable(fs: FileSystem, commit: string) {
    && Plain(fs, ServiceFile) && Plain(fs, NginxAvailable)
    && UnitSource(commit) in fs && fs[UnitSource(commit)].File? && SiteSource(commit) in fs && fs[SiteSource(commit)].File?
    && (NginxEnabled in fs ==> IsLink(fs, NginxEnabled) && Resolved(fs, NginxEnabled) == Some(NginxAvailable))
  }

  /** `current` can be pointed at the release. */
  ghost predicate Switchable(fs: FileSystem, commit: string) {
    && HasMarker(fs, commit) && CurrentStaging !in fs
    && (Current in fs ==> IsLink(fs, Current) && CurrentRelease(fs).Some? && HasMarker(fs, CurrentRelease(fs).value))
  }

  /** The temporary name of a managed path can be written. */
  ghost predicate TemporariesFree(fs: FileSystem) {
    forall p :: p in MANAGED ==> Plain(fs, RestoreTemporary(p))
  }

  /** Nothing changed but the file at the path, which is a regular one or absent. */
  ghost predicate OnlyAt(a: FileSystem, b: FileSystem, p: Path) {
    Plain(b, p) && forall q :: q != p ==> SameAt(a, b, q)
  }

  lemma OnlyAtTrans(a: FileSystem, b: FileSystem, c: FileSystem, p: Path)
    requires OnlyAt(a, b, p) && OnlyAt(b, c, p)
    ensures OnlyAt(a, c, p)
  {
    forall q | q != p ensures SameAt(a, c, q) {
      assert SameAt(a, b, q) && SameAt(b, c, q);
    }
  }

  /** A sane host on which the release may be activated. */
  ghost predicate Prepared(fs: FileSystem, commit: string) {
    && Sane(fs) && Configurable(fs, commit) && Switchable(fs, commit) && TemporariesFree(fs)
    && Release(commit) in fs && fs[Release(commit)].Directory?
  }

  /** What `_restore` finds that it can undo. */
  ghost predicate Undoable(fs: FileSystem, previous: Option<string>, switched: bool) {
    && (switched && previous.Some? ==> Switchable(fs, previous.value))
    && (forall p :: p in MANAGED ==> !(p in fs && fs[p].Directory?))
    && TemporariesFree(fs)
  }

  // ------------------------------------------------------------------
  // The host
  // ------------------------------------------------------------------

  class Host {
    var fs: FileSystem
    var running: bool
    var enabledAtBoot: bool

    /** `shutil.copy2`: on failure the destination may be untouched or hold anything. */
    method Copy(source: Path, p: Path, name: string, f: Faults) returns (ok: bool)
      requires p in {ServiceFile, NginxAvailable}
      modifies this`fs
      ensures Sane(old(fs)) ==> Wrote(old(fs), fs)
      ensures ok && Plain(old(fs), p) ==>
        && source in old(fs) && old(fs)[source].File? && p in fs && fs[p].File?
        && fs == old(fs)[p := fs[p]] && fs[p].content == old(fs)[source].content
      ensures ok ==> {OpenFile(p), CopyFile(p)} !! f.calls
      ensures Plain(old(fs), p) ==> OnlyAt(old(fs), fs, p)
      ensures Plain(old(fs), p) && source in old(fs) && old(fs)[source].File? && {OpenFile(p), CopyFile(p)} !! f.calls ==> ok
    {
      var landing := Landing(fs, p, name);
      if OpenFile(p) in f.calls || landing.None? || source !in fs || !fs[source].File? {
        return false;
      }
      var q := landing.value;
      LandingIsNoLink(fs, p, name);
      if q in fs && fs[q].Directory? {
        return false;
      }
      ok := CopyFile(p) !in f.calls;
      var written, mode := if ok then fs[source].content else f.partial, if ok then fs[source].mode else f.halfway;
      var owner := if q in fs && fs[q].File? then (fs[q].uid, fs[q].gid) else (0, 0);
      ghost var before := fs;
      var file := File(written, mode, owner.0, owner.1);
      fs := fs[q := file];
      assert Sane(before) ==> WroteAt(before, fs, q, file);
    }

    /** `os.chown(path, 0, 0)`, which follows links. */
    method ChangeOwner(p: Path, f: Faults) returns (ok: bool)
      requires p in {ServiceFile, NginxAvailable}
      modifies this`fs
      ensures Sane(old(fs)) ==> Wrote(old(fs), fs)
      ensures ok && Plain(old(fs), p) ==>
        p in old(fs) && old(fs)[p].File? && fs == old(fs)[p := old(fs)[p].(uid := 0, gid := 0)]
      ensures ok ==> OwnFile(p) !in f.calls
      ensures Plain(old(fs), p) ==> OnlyAt(old(fs), fs, p)
      ensures Plain(old(fs), p) && p in old(fs) && OwnFile(p) !in f.calls ==> ok
    {
      ok := OwnFile(p) !in f.calls;
      var target := Resolved(fs, p);
      if !ok || target.None? || target.value !in fs {
        return false;
      }
      if fs[target.value].File? { Rewrite(p, target.value, fs[target.value].(uid := 0, gid := 0)); }
    }

    /** `os.chmod(path, 0o644)`, which follows links. */
    method ChangeMode(p: Path, f: Faults) returns (ok: bool)
      requires p in {ServiceFile, NginxAvailable}
      modifies this`fs
      ensures Sane(old(fs)) ==> Wrote(old(fs), fs)
      ensures ok && Plain(old(fs), p) ==>
        p in old(fs) && old(fs)[p].File? && fs == old(fs)[p := old(fs)[p].(mode := 0x1A4)]
      ensures ok ==> ModeFile(p) !in f.calls
      ensures Plain(old(fs), p) ==> OnlyAt(old(fs), fs, p)
      ensures Plain(old(fs), p) && p in old(fs) && ModeFile(p) !in f.calls ==> ok
    {
      ok := ModeFile(p) !in f.calls;
      var target := Resolved(fs, p);
      if !ok || target.None? || target.value !in fs {
        return false;
      }
      if fs[target.value].File? { Rewrite(p, target.value, fs[target.value].(mode := 0x1A4)); }
    }

    method Rewrite(p: Path, q: Path, file: Node)
      requires p in {ServiceFile, NginxAvailable} && Resolved(fs, p) == Some(q) && q in fs && fs[q].File? && file.File?
      modifies this`fs
      ensures fs == old(fs)[q := file]
      ensures Sane(old(fs)) ==> Wrote(old(fs), fs)
    {
      assert Landing(fs, p, "") == Some(q);
      LandingIsNoLink(fs, p, "");
      ghost var before := fs;
      fs := fs[q := file];
      assert Sane(before) ==> WroteAt(before, fs, q, file);
    }

    method InstallFile(source: Path, p: Path, name: string, f: Faults) returns (ok: bool)
      requires p in {ServiceFile, NginxAvailable}
      modifies this`fs
      ensures Sane(old(fs)) ==> Sane(fs) && Kept(old(fs), fs) && SameAt(old(fs), fs, Current)
      ensures ok && Plain(old(fs), p) ==> InstalledAt(old(fs), fs, source, p) && fs == old(fs)[p := fs[p]]
      ensures ok ==> FileCalls(p) !! f.calls
      ensures Plain(old(fs), p) ==> OnlyAt(old(fs), fs, p)
      ensures Plain(old(fs), p) && source in old(fs) && old(fs)[source].File? && FileCalls(p) !! f.calls ==> ok
    {
      ok := Copy(source, p, name, f);
      if Sane(old(fs)) { WroteKeepsSane(old(fs), fs); }
      if !ok { return; }
      ghost var copied := fs;
      ok := ChangeOwner(p, f);
      if Sane(old(fs)) { WroteKeepsSane(copied, fs); }
      if Plain(old(fs), p) { OnlyAtTrans(old(fs), copied, fs, p); }
      if !ok { return; }
      ghost var owned := fs;
      ok := ChangeMode(p, f);
      if Sane(old(fs)) { WroteKeepsSane(owned, fs); }
      if Plain(old(fs), p) { OnlyAtTrans(old(fs), owned, fs, p); }
    }

    method InstallConfiguration(commit: string, f: Faults) returns (ok: bool)
      modifies this`fs
      ensures Sane(old(fs)) ==> Kept(old(fs), fs) && SameAt(old(fs), fs, Current)
      ensures ok ==> IsLink(fs, NginxEnabled)
      ensures ok && Plain(old(fs), ServiceFile) && Plain(old(fs), NginxAvailable) ==> Installed(old(fs), fs, commit)
      ensures Configurable(old(fs), commit) ==>
        && (ok <==> ConfigurationCalls(NginxEnabled in old(fs)) !! f.calls) && OnlyConfigured(old(fs), fs)
    {
      ok := CheckSecrets !in f.calls;
      if !ok { return; }
      ok := InstallFile(UnitSource(commit), ServiceFile, "ehf.service", f);
      ghost var first := fs;
      if Configurable(old(fs), commit) { StillConfigurable(old(fs), fs, commit, ServiceFile); }
      if !ok { return; }
      ok := InstallFile(SiteSource(commit), NginxAvailable, "ehf.nginx.conf", f);
      if Configurable(old(fs), commit) {
        StillConfigurable(first, fs, commit, NginxAvailable);
        TwoFilesConfigured(old(fs), first, fs);
      }
      if !ok { return; }
      ghost var second := fs;
      ok := EnableSite(f);
      if Configurable(old(fs), commit) { SiteConfigured(old(fs), second, fs); }
    }

    /** The enabled site must be a link to the available one; it is created if nothing is there. */
    method EnableSite(f: Faults) returns (ok: bool)
      modifies this`fs
      ensures fs == old(fs) || (NginxEnabled !in old(fs) && fs == old(fs)[NginxEnabled := Link(NginxAvailable)])
      ensures ok ==> IsLink(fs, NginxEnabled) && (NginxEnabled in old(fs) ==> Resolved(fs, NginxEnabled) == Some(NginxAvailable))
      ensures ok <==> CheckSite !in f.calls && if NginxEnabled in old(fs)
        then IsLink(old(fs), NginxEnabled) && Resolved(old(fs), NginxEnabled) == Some(NginxAvailable) else LinkSite !in f.calls
    {
      if Exists(fs, NginxEnabled) || IsLink(fs, NginxEnabled) {
        if !IsLink(fs, NginxEnabled) || Resolved(fs, NginxEnabled) != Some(NginxAvailable) {
          return false;
        }
      } else {
        if LinkSite in f.calls {
          return false;
        }
        fs := fs[NginxEnabled := Link(NginxAvailable)];
      }
      ok := CheckSite !in f.calls;
    }

    method SnapshotPath(p: Path) returns (r: Option<PathSnapshot>)
      ensures r == SnapshotOf(fs, p)
    {
      if IsLink(fs, p) {
        return Some(SymbolicLink(fs[p].target));
      }
      if p in fs {
        if !fs[p].File? {
          return None;
        }
        return Some(RegularFile(fs[p].content, fs[p].mode, fs[p].uid, fs[p].gid));
      }
      return Some(Absent);
    }

    /** Every step may fail and then leave the path absent or the temporary file behind. */
    method RestorePath(p: Path, snapshot: PathSnapshot, f: Faults) returns (ok: bool)
      requires p in MANAGED
      modifies this`fs
      ensures ok && !IsLink(old(fs), RestoreTemporary(p)) ==> fs == PutTidily(old(fs), p, snapshot)
      ensures f.calls == {} && !(p in old(fs) && old(fs)[p].Directory?) && Plain(old(fs), RestoreTemporary(p)) ==> ok
    {
      if p in fs {
        if fs[p].Directory? || RemovePath(p) in f.calls {
          return false;
        }
        fs := fs - {p};
      }
      ok := true;
      match snapshot {
        case Absent =>
        case SymbolicLink(target) =>
          if PutLink(p) in f.calls {
            return false;
          }
          fs := fs[p := Link(target)];
        case RegularFile(content, mode, uid, gid) => ok := ReplaceByFile(p, content, mode, uid, gid, f);
      }
    }

    /** Write a temporary file, overwriting what an interrupted restoration left, and rename it onto the path. */
    method ReplaceByFile(p: Path, content: string, mode: nat, uid: nat, gid: nat, f: Faults) returns (ok: bool)
      requires p in MANAGED && p !in fs
      modifies this`fs
      ensures ok && !IsLink(old(fs), RestoreTemporary(p)) ==>
        fs == old(fs)[p := File(content, mode, uid, gid)] - {RestoreTemporary(p)}
      ensures f.calls == {} && Plain(old(fs), RestoreTemporary(p)) ==> ok
    {
      var temporary := RestoreTemporary(p);
      var target := Resolved(fs, temporary);
      if WriteBack(p) in f.calls || target.None? || (target.value in fs && fs[target.value].Directory?) {
        return false;
      }
      var q := target.value;
      FollowedIsNoLink(fs, temporary, MAX_LINKS);
      var leftover := if q in fs then fs[q] else File("", 0x1A4, 0, 0);
      fs := fs[q := leftover.(content := content)];
      if OwnBack(p) in f.calls {
        return false;
      }
      fs := fs[q := fs[q].(uid := uid, gid := gid)];
      if ModeBack(p) in f.calls {
        return false;
      }
      fs := fs[q := fs[q].(mode := mode)];
      if RenameBack(p) in f.calls || temporary !in fs {
        return false;
      }
      fs := fs[p := fs[temporary]] - {temporary};
      return true;
    }

    method RestoreConfiguration(configuration: Configuration, ghost before: FileSystem, f: Faults) returns (ok: bool)
      requires forall p :: p in MANAGED ==> SnapshotOf(before, p) == Some(SnapshotIn(configuration, p))
      modifies this`fs
      ensures ok && (forall p :: p in MANAGED ==> !IsLink(old(fs), RestoreTemporary(p))) ==>
        && (forall p :: p in MANAGED ==> SameAt(before, fs, p))
        && TidiedElsewhere(old(fs), fs)
      ensures f.calls == {} && Undoable(old(fs), None, false) ==> ok
    {
      ghost var start := fs;
      assert MANAGED[0] == NginxEnabled && MANAGED[1] == NginxAvailable && MANAGED[2] == ServiceFile;
      ok := RestorePath(NginxEnabled, configuration.enabled, f);
      if !ok { return; }
      ghost var first := fs;
      ok := RestorePath(NginxAvailable, configuration.available, f);
      if !ok { return; }
      ghost var second := fs;
      ok := RestorePath(ServiceFile, configuration.service, f);
      if ok && forall p :: p in MANAGED ==> !IsLink(start, RestoreTemporary(p)) {
        assert first == PutTidily(start, NginxEnabled, configuration.enabled);
        assert second == PutTidily(first, NginxAvailable, configuration.available);
        ThreePathsBack(before, start, first, second, fs, configuration);
      }
    }

    /** Point `current` at a release through a staging link and an atomic rename. */
    method SwitchCurrent(commit: string, f: Faults) returns (ok: bool, previous: Option<string>)
      modifies this`fs
      ensures Kept(old(fs), fs)
      ensures !ok ==> fs == old(fs)
      ensures ok ==>
        && fs == old(fs)[Current := Link(Release(commit))]
        && HasMarker(fs, commit)
        && previous == CurrentRelease(old(fs))
        && (previous.None? ==> Current !in old(fs))
        && (previous.Some? ==> HasMarker(fs, previous.value) && IsLink(old(fs), Current))
      ensures ok <==> Switchable(old(fs), commit) && SWITCH_CALLS !! f.calls
    {
      previous := None;
      if !HasMarker(fs, commit) || PrepareSwitch in f.calls {
        return false, None;
      }
      if Exists(fs, Current) || IsLink(fs, Current) {
        if !IsLink(fs, Current) {
          return false, None;
        }
        previous := CurrentRelease(fs);
        if previous.None? || !HasMarker(fs, previous.value) {
          return false, None;
        }
      }
      if CurrentStaging in fs || StageLink in f.calls {
        return false, None;
      }
      fs := fs[CurrentStaging := Link(Release(commit))];
      if ReplaceLink in f.calls {
        fs := fs - {CurrentStaging};
        return false, None;
      }
      fs := (fs - {CurrentStaging})[Current := fs[CurrentStaging]];
      ok := true;
    }

    /** `systemctl`: a failed start or stop leaves the service in either state. */
    method SetRunning(target: bool, f: Faults) returns (ok: bool)
      modifies this`running
      ensures ok <==> SetUnit !in f.calls
      ensures ok ==> running == target
    {
      ok := SetUnit !in f.calls;
      running := if ok then target else f.limbo;
    }

    method Restore(previous: Option<string>, wasRunning: bool, configuration: Configuration, switched: bool,
                   ghost before: FileSystem, f: Faults) returns (ok: bool)
      requires forall p :: p in MANAGED ==> SnapshotOf(before, p) == Some(SnapshotIn(configuration, p))
      modifies this
      ensures ok && Restorable(before, old(fs), previous, switched) ==> Restored(before, wasRunning, fs, running)
      ensures enabledAtBoot == old(enabledAtBoot)
      ensures f.calls == {} && Undoable(old(fs), previous, switched) ==> ok
    {
      if switched {
        if previous.None? {
          if IsLink(fs, Current) { fs := fs - {Current}; }
        } else {
          var again;
          ok, again := SwitchCurrent(previous.value, f);
          if !ok { return; }
        }
      }
      ghost var current := fs;
      if Restorable(before, old(fs), previous, switched) {
        ReleaseIsBack(before, old(fs), fs, previous, switched);
        assert forall p :: p in MANAGED ==> SameAt(before, fs, RestoreTemporary(p));
        assert forall p :: p in MANAGED ==> !IsLink(fs, RestoreTemporary(p));
      }
      assert forall p :: p != Current ==> SameAt(old(fs), fs, p);
      ok := RestoreConfiguration(configuration, before, f);
      if !ok { return; }
      if Restorable(before, old(fs), previous, switched) { ManagedIsBack(before, current, fs); }
      if ReloadUnits in f.calls {
        return false;
      }
      ok := SetRunning(wasRunning, f);
    }

    /** Configure, test if this is a first activation, and switch; also says what was current before. */
    method Activate(commit: string, tested: bool, f: Faults) returns (ok: bool, previous: Option<string>, switched: bool)
      modifies this
      ensures enabledAtBoot == old(enabledAtBoot) || tested
      ensures ok ==> fs[Current := Link(Release(commit))] == fs && HasMarker(fs, commit) && running && (tested ==> enabledAtBoot)
      ensures ok && Plain(old(fs), ServiceFile) && Plain(old(fs), NginxAvailable) ==> Installed(old(fs), fs, commit)
      ensures Sane(old(fs)) ==> Restorable(old(fs), fs, previous, switched)
      ensures Prepared(old(fs), commit) ==>
        && Undoable(fs, previous, switched)
        && (ok <==> (if tested then DeployCalls(NginxEnabled in old(fs)) else RollbackCalls(NginxEnabled in old(fs))) !! f.calls)
    {
      previous, switched := None, false;
      ok := InstallConfiguration(commit, f);
      ghost var configured := fs;
      if Prepared(old(fs), commit) { ConfiguredStaysPrepared(old(fs), fs, commit); }
      // The release's own tests and the database steps; they are trusted to stay out of the managed paths.
      if tested && ReleaseTests in f.calls { ok := false; }
      if ok {
        ok, previous := SwitchCurrent(commit, f);
        switched := ok;
      }
      if Sane(old(fs)) { SwitchIsRestorable(old(fs), configured, fs, previous, switched); }
      if Prepared(old(fs), commit) { SwitchIsUndoable(configured, fs, commit, previous, switched); }
      if ok { ok := StartService(tested, f); }
    }

    /** Reload the unit files, enable the unit on a deployment, start the service, wait for it and reload the web server. */
    method StartService(enable: bool, f: Faults) returns (ok: bool)
      modifies this`running, this`enabledAtBoot
      ensures ok <==> SERVICE_CALLS + (if enable then {EnableUnit} else {}) !! f.calls
      ensures ok ==> running && (enable ==> enabledAtBoot)
      ensures enabledAtBoot == old(enabledAtBoot) || enable
    {
      if ReloadUnits in f.calls {
        return false;
      }
      if enable {
        if EnableUnit in f.calls {
          return false;
        }
        enabledAtBoot := true;
      }
      ok := SetRunning(true, f);
      if ok { ok := AwaitReady !in f.calls && ReloadSite !in f.calls; }
    }

    /**
     * The activation of a prepared release: configure, test, switch, start; on any failure, restore. It is refused exactly
     * if some managed path cannot be snapshotted.
     */
    method Deploy(commit: string, activation: Faults, restoration: Faults) returns (outcome: Outcome)
      modifies this
      ensures outcome == Refused <==> exists p :: p in MANAGED && SnapshotOf(old(fs), p).None?
      ensures outcome == Refused ==> fs == old(fs) && running == old(running) && enabledAtBoot == old(enabledAtBoot)
      ensures outcome == Done ==> Current in fs && fs[Current] == Link(Release(commit)) && HasMarker(fs, commit) && running
      ensures outcome == Done ==> enabledAtBoot
      ensures outcome == Done && Plain(old(fs), ServiceFile) && Plain(old(fs), NginxAvailable) ==>
                Installed(old(fs), fs, commit)
      ensures outcome == Failed(true) && Sane(old(fs)) ==> Restored(old(fs), old(running), fs, running)
      ensures Prepared(old(fs), commit) ==>
        && (outcome == Done <==> DeployCalls(NginxEnabled in old(fs)) !! activation.calls)
        && (outcome != Done && restoration.calls == {} ==> outcome == Failed(true))
    {
      var wasRunning := running;
      var configuration := SnapshotConfiguration();
      if configuration.None? {
        if Prepared(fs, commit) { PreparedIsSnapshotted(fs, commit); }
        return Refused;
      }
      var ok, previous, switched := Activate(commit, true, activation);
      if !ok {
        var restored := Restore(previous, wasRunning, configuration.value, switched, old(fs), restoration);
        return Failed(restored);
      }
      return Done;
    }

    /** The same for an earlier release, without tests and without enabling; refused also if the release is not marked. */
    method Rollback(commit: string, activation: Faults, restoration: Faults) returns (outcome: Outcome)
      modifies this
      ensures outcome == Refused <==> !HasMarker(old(fs), commit) || exists p :: p in MANAGED && SnapshotOf(old(fs), p).None?
      ensures outcome == Refused ==> fs == old(fs) && running == old(running)
      ensures outcome == Done ==> Current in fs && fs[Current] == Link(Release(commit)) && HasMarker(fs, commit) && running
      ensures outcome == Done && Plain(old(fs), ServiceFile) && Plain(old(fs), NginxAvailable) ==>
                Installed(old(fs), fs, commit)
      ensures outcome == Failed(true) && Sane(old(fs)) ==> Restored(old(fs), old(running), fs, running)
      ensures enabledAtBoot == old(enabledAtBoot)
      ensures Prepared(old(fs), commit) ==>
        && (outcome == Done <==> RollbackCalls(NginxEnabled in old(fs)) !! activation.calls)
        && (outcome != Done && restoration.calls == {} ==> outcome == Failed(true))
    {
      if !HasMarker(fs, commit) {
        return Refused;
      }
      var wasRunning := running;
      var configuration := SnapshotConfiguration();
      if configuration.None? {
        if Prepared(fs, commit) { PreparedIsSnapshotted(fs, commit); }
        return Refused;
      }
      var ok, previous, switched := Activate(commit, false, activation);
      if !ok {
        var restored := Restore(previous, wasRunning, configuration.value, switched, old(fs), restoration);
        return Failed(restored);
      }
      return Done;
    }

    method SnapshotConfiguration() returns (r: Option<Configuration>)
      ensures r.Some? <==> forall p :: p in MANAGED ==> SnapshotOf(fs, p).Some?
      ensures r.Some? ==> forall p :: p in MANAGED ==> SnapshotOf(fs, p) == Some(SnapshotIn(r.value, p))
    {
      var service := SnapshotPath(ServiceFile);
      var available := SnapshotPath(NginxAvailable);
      var enabled := SnapshotPath(NginxEnabled);
      assert NginxEnabled in MANAGED && NginxAvailable in MANAGED && ServiceFile in MANAGED by {
        assert MANAGED[0] == NginxEnabled && MANAGED[1] == NginxAvailable && MANAGED[2] == ServiceFile;
      }
      if service.None? || available.None? || enabled.None? {
        return None;
      }
      return Some(Configuration(service.value, available.value, enabled.value));
    }
  }

  /** Nothing changed but the two files, which stay regular or absent, and the link to the site, if it was not there. */
  ghost predicate OnlyConfigured(a: FileSystem, b: FileSystem) {
    && Plain(b, ServiceFile) && Plain(b, NginxAvailable)
    && (forall p :: p != ServiceFile && p != NginxAvailable && p != NginxEnabled ==> SameAt(a, b, p))
    && (SameAt(a, b, NginxEnabled) || (NginxEnabled !in a && IsLink(b, NginxEnabled)))
  }

  /** Writing one of the two files leaves the rest configurable, and the link to the site as it resolves. */
  lemma StillConfigurable(a: FileSystem, b: FileSystem, commit: string, p: Path)
    requires Configurable(a, commit) && OnlyAt(a, b, p) && (p == ServiceFile || p == NginxAvailable)
    ensures Configurable(b, commit)
  {
    forall q | IsLink(a, q) || IsLink(b, q) ensures SameAt(a, b, q) {
      assert q != p ==> SameAt(a, b, q);
    }
    SameLinksFollowed(a, b, NginxEnabled, MAX_LINKS);
    assert SameAt(a, b, UnitSource(commit)) && SameAt(a, b, SiteSource(commit)) && SameAt(a, b, NginxEnabled);
    assert p == ServiceFile ==> SameAt(a, b, NginxAvailable);
    assert p == NginxAvailable ==> SameAt(a, b, ServiceFile);
  }

  lemma TwoFilesConfigured(a: FileSystem, first: FileSystem, second: FileSystem)
    requires OnlyAt(a, first, ServiceFile) && OnlyAt(first, second, NginxAvailable)
    ensures OnlyConfigured(a, second)
  {
    assert SameAt(first, second, ServiceFile);
    forall p | p != ServiceFile && p != NginxAvailable ensures SameAt(a, second, p) {
      assert SameAt(a, first, p) && SameAt(first, second, p);
    }
  }

  lemma SiteConfigured(a: FileSystem, second: FileSystem, b: FileSystem)
    requires OnlyConfigured(a, second) && SameAt(a, second, NginxEnabled)
    requires b == second || (NginxEnabled !in second && b == second[NginxEnabled := Link(NginxAvailable)])
    ensures OnlyConfigured(a, b)
  {
    forall p | p != ServiceFile && p != NginxAvailable && p != NginxEnabled ensures SameAt(a, b, p) {
      assert SameAt(a, second, p);
    }
  }

  lemma ManagedAre()
    ensures forall p :: p in MANAGED <==> p == NginxEnabled || p == NginxAvailable || p == ServiceFile
  {
    assert MANAGED[0] == NginxEnabled && MANAGED[1] == NginxAvailable && MANAGED[2] == ServiceFile;
  }

  /** A new host that holds nothing but an unpacked release is one of them. */
  lemma NewHostIsPrepared(commit: string)
    ensures Prepared(map[Release(commit) := Directory, CommitMarker(commit) := File(commit, 0x1A4, 0, 0),
                         UnitSource(commit) := File("unit", 0x1A4, 0, 0), SiteSource(commit) := File("site", 0x1A4, 0, 0)], commit)
  {
    ManagedAre();
  }

  lemma PreparedIsSnapshotted(fs: FileSystem, commit: string)
    requires Prepared(fs, commit)
    ensures forall p :: p in MANAGED ==> SnapshotOf(fs, p).Some?
  {
    ManagedAre();
  }

  /** Configuring a prepared host leaves `current` switchable and everything undoable. */
  lemma ConfiguredStaysPrepared(a: FileSystem, b: FileSystem, commit: string)
    requires Prepared(a, commit) && OnlyConfigured(a, b) && Kept(a, b) && SameAt(a, b, Current)
    ensures Switchable(b, commit) && Undoable(b, None, false)
    ensures Release(commit) in b && b[Release(commit)].Directory?
  {
    ManagedAre();
    SameRelease(a, b);
    forall c ensures SameAt(a, b, CommitMarker(c)) {}
    assert SameAt(a, b, CurrentStaging) && SameAt(a, b, Release(commit));
    forall p | p in MANAGED ensures Plain(b, RestoreTemporary(p)) && !(p in b && b[p].Directory?) {
      assert SameAt(a, b, RestoreTemporary(p)) && Plain(a, RestoreTemporary(p));
    }
  }

  lemma SwitchIsUndoable(configured: FileSystem, fs: FileSystem, commit: string, previous: Option<string>, switched: bool)
    requires Switchable(configured, commit) && Undoable(configured, None, false)
    requires Release(commit) in configured && configured[Release(commit)].Directory?
    requires if switched then fs == configured[Current := Link(Release(commit))] && previous == CurrentRelease(configured)
                              && (previous.Some? ==> HasMarker(fs, previous.value))
             else fs == configured
    ensures Undoable(fs, previous, switched)
  {
    ManagedAre();
    if switched {
      assert Followed(fs, Release(commit), MAX_LINKS - 1) == Some(Release(commit));
      assert Resolved(fs, Current) == Followed(fs, Release(commit), MAX_LINKS - 1);
      assert CurrentRelease(fs) == Some(commit);
    }
  }

  /** `Failed` says whether the restoration itself completed. */
  datatype Outcome = Refused | Done | Failed(restored: bool)

  /** Putting back one path leaves the others as they are, but for its temporary name. */
  lemma OnePathBack(before: FileSystem, a: FileSystem, b: FileSystem, p: Path, snapshot: PathSnapshot)
    requires p in MANAGED && SnapshotOf(before, p) == Some(snapshot) && b == PutTidily(a, p, snapshot)
    ensures SameAt(before, b, p) && forall q :: q != p ==> Tidied(a, b, q)
  {
  }

  lemma ThreePathsBack(before: FileSystem, start: FileSystem, first: FileSystem, second: FileSystem, last: FileSystem, c: Configuration)
    requires forall p :: p in MANAGED ==> SnapshotOf(before, p) == Some(SnapshotIn(c, p))
    requires first == PutTidily(start, NginxEnabled, c.enabled) && second == PutTidily(first, NginxAvailable, c.available)
    requires last == PutTidily(second, ServiceFile, c.service)
    ensures (forall p :: p in MANAGED ==> SameAt(before, last, p)) && TidiedElsewhere(start, last)
  {
    assert MANAGED[0] == NginxEnabled && MANAGED[1] == NginxAvailable && MANAGED[2] == ServiceFile;
    OnePathBack(before, start, first, NginxEnabled, c.enabled);
    OnePathBack(before, first, second, NginxAvailable, c.available);
    OnePathBack(before, second, last, ServiceFile, c.service);
    forall p | p !in MANAGED ensures Tidied(start, last, p) {
      assert Tidied(start, first, p) && Tidied(first, second, p) && Tidied(second, last, p);
    }
    assert Tidied(first, second, NginxEnabled) && Tidied(second, last, NginxEnabled) && Tidied(second, last, NginxAvailable);
  }

  /** The situation in which `_restore` is called, as it follows from a sane host. */
  ghost predicate Restorable(before: FileSystem, fs: FileSystem, previous: Option<string>, switched: bool) {
    && Sane(before) && Kept(before, fs)
    && (!switched ==> SameAt(before, fs, Current))
    && (switched ==>
          && IsLink(fs, Current) && previous == CurrentRelease(before)
          && (previous.None? ==> Current !in before)
          && (previous.Some? ==> !IsLink(before, Release(previous.value)) && Release(previous.value) in before))
  }

  /** The path is as before, or it is the temporary name of a managed path and free. */
  predicate Tidied(a: FileSystem, b: FileSystem, p: Path) {
    SameAt(a, b, p) || (p.RestoreTemporary? && p.of in MANAGED && p !in b)
  }

  ghost predicate TidiedElsewhere(a: FileSystem, b: FileSystem) {
    forall p :: p !in MANAGED ==> Tidied(a, b, p)
  }

  /** What a completed restoration promises. */
  ghost predicate Restored(before: FileSystem, wasRunning: bool, fs: FileSystem, running: bool) {
    && CurrentRelease(fs) == CurrentRelease(before)
    && (forall p :: p in MANAGED ==> SameAt(before, fs, p))
    && (forall p :: ReleaseArea(p) && !p.Current? ==> Tidied(before, fs, p))
    && running == wasRunning
  }

  lemma {:induction false} FollowedIsNoLink(fs: FileSystem, p: Path, hops: nat)
    ensures Followed(fs, p, hops).Some? ==> !IsLink(fs, Followed(fs, p, hops).value)
    decreases hops
  {
    if IsLink(fs, p) && hops > 0 { FollowedIsNoLink(fs, fs[p].target, hops - 1); }
  }

  lemma LandingIsNoLink(fs: FileSystem, p: Path, name: string)
    ensures Landing(fs, p, name).Some? ==> !IsLink(fs, Landing(fs, p, name).value)
  {
    FollowedIsNoLink(fs, p, MAX_LINKS);
    if Resolved(fs, p).Some? { FollowedIsNoLink(fs, Inside(Resolved(fs, p).value, name), MAX_LINKS); }
  }

  lemma SwitchIsRestorable(before: FileSystem, configured: FileSystem, fs: FileSystem, previous: Option<string>, switched: bool)
    requires Sane(before) && Kept(before, configured) && SameAt(before, configured, Current)
    requires Kept(configured, fs)
    requires !switched ==> SameAt(configured, fs, Current)
    requires switched ==>
      && IsLink(fs, Current) && previous == CurrentRelease(configured)
      && (previous.None? ==> Current !in configured)
    ensures Restorable(before, fs, previous, switched)
  {
    SameRelease(before, configured);
    FollowedIsNoLink(before, Current, MAX_LINKS);
  }

  lemma ReleaseIsBack(before: FileSystem, a: FileSystem, b: FileSystem, previous: Option<string>, switched: bool)
    requires Restorable(before, a, previous, switched) && Kept(a, b)
    requires !switched ==> b == a
    requires switched && previous.None? ==> b == a - {Current}
    requires switched && previous.Some? ==> b == a[Current := Link(Release(previous.value))]
    ensures Kept(before, b) && CurrentRelease(b) == CurrentRelease(before)
    ensures AvoidsManaged(b, Current, MAX_LINKS)
  {
    if !switched {
      SameRelease(before, b);
    } else if previous.Some? {
      var release := Release(previous.value);
      assert SameAt(before, b, release);
      assert Followed(b, release, MAX_LINKS - 1) == Some(release);
      assert Followed(b, Current, MAX_LINKS) == Followed(b, release, MAX_LINKS - 1);
    }
  }

  lemma ManagedIsBack(before: FileSystem, current: FileSystem, fs: FileSystem)
    requires Kept(before, current) && CurrentRelease(current) == CurrentRelease(before)
    requires AvoidsManaged(current, Current, MAX_LINKS)
    requires forall p :: p in MANAGED ==> SameAt(before, fs, p)
    requires TidiedElsewhere(current, fs)
    requires forall p :: p in MANAGED ==> !IsLink(current, RestoreTemporary(p))
    ensures CurrentRelease(fs) == CurrentRelease(before)
    ensures forall p :: ReleaseArea(p) && !p.Current? ==> Tidied(before, fs, p)
  {
    forall q | q !in MANAGED && (IsLink(current, q) || IsLink(fs, q)) ensures SameAt(current, fs, q) {
      assert Tidied(current, fs, q);
    }
    AvoidsStays(current, fs, Current, MAX_LINKS);
    forall p | ReleaseArea(p) && !p.Current? ensures Tidied(before, fs, p) {
      assert Tidied(current, fs, p) && SameAt(before, current, p);
    }
    forall commit ensures SameAt(current, fs, Release(commit)) {
      assert Tidied(current, fs, Release(commit));
    }
  }

  /**
   * Restoring a managed path puts the whole file system back exactly if the path was not a link, or the file behind the
   * link already was what the installer wrote there: the file behind a link is overwritten and never restored.
   */
  lemma FileBehindLinkIsNotRestored(fs: FileSystem, p: Path, name: string, file: Node)
    requires SnapshotOf(fs, p).Some? && Landing(fs, p, name).Some?
    ensures var q := Landing(fs, p, name).value;
            Put(fs[q := file], p, SnapshotOf(fs, p).value) == fs <==> !IsLink(fs, p) || (q in fs && fs[q] == file)
  {
    var q := Landing(fs, p, name).value;
    LandingIsNoLink(fs, p, name);
    var back := Put(fs[q := file], p, SnapshotOf(fs, p).value);
    PutRestores(fs, fs[q := file], p);
    if IsLink(fs, p) {
      assert SameAt(fs[q := file], back, q);
    }
    if !IsLink(fs, p) || (q in fs && fs[q] == file) {
      forall r ensures SameAt(fs, back, r) {
        assert r != p ==> SameAt(fs[q := file], back, r);
      }
    }
  }

  /** A sane host whose unit file is a link to a file kept elsewhere. */
  const LINKED_UNIT: FileSystem :=
    map[ServiceFile := Link(Elsewhere("unit")), Elsewhere("unit") := File("former", 0x1A4, 0, 0)]

  /** Restoring the link leaves the new unit in the file behind it. */
  lemma LinkedUnitIsNotRestored(file: Node)
    requires file.File? && file.content != "former"
    ensures var fs := LINKED_UNIT; var q := Elsewhere("unit");
      && Sane(fs) && Landing(fs, ServiceFile, "ehf.service") == Some(q)
      && Put(fs[q := file], ServiceFile, SymbolicLink(q)) != fs
  {
    var fs := LINKED_UNIT;
    assert Followed(fs, Elsewhere("unit"), MAX_LINKS - 1) == Some(Elsewhere("unit"));
    assert Resolved(fs, ServiceFile) == Some(Elsewhere("unit"));
    FileBehindLinkIsNotRestored(fs, ServiceFile, "ehf.service", file);
  }
}
