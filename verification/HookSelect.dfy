/** Which VFS programs iosnoop loads on which kernel. A program stands for its
    name and section: the loader tells programs apart by parts of these. */
module HookSelect {

  datatype Hook =
    | VfsOpen | VfsRead | VfsWrite | VfsCreate | VfsMkdir | VfsRmdir | VfsSymlink | VfsRename
    | VfsGetattr | VfsTruncate | VfsFchmod | VfsReadlink | VfsReadv | VfsWritev | IterateDir | VfsLockFile

  /** Functions that always carry a kprobe and a kretprobe of their own. */
  datatype AlwaysHook = VfsUnlink | VfsLink | VfsFallocate | DoMmap | VmMunmap

  datatype Program =
    | Syscall(id: nat)
    | Fentry(hook: Hook) | Fexit(hook: Hook)
    | KprobeFallback(hook: Hook) | KretprobeFallback(hook: Hook)
    | CreateLegacyFallback | RenameLegacyKprobeFallback | RenameLegacyKretprobeFallback
    | Kprobe(on: AlwaysHook) | Kretprobe(on: AlwaysHook)

  datatype Env = Env(fentryAttaches: Hook -> bool, params: Hook -> int, present: Hook -> bool)

  function ExpectedParams(h: Hook): int {
    match h
    case VfsOpen | VfsTruncate | VfsFchmod | IterateDir => 2
    case VfsRmdir | VfsReadlink => 3
    case VfsCreate | VfsReadv | VfsWritev => 5
    case VfsRename => 1
    case _ => 4
  }

  const HOOKS: seq<Hook> :=
    [VfsOpen, VfsRead, VfsWrite, VfsCreate, VfsMkdir, VfsRmdir, VfsSymlink, VfsRename, VfsGetattr,
     VfsTruncate, VfsFchmod, VfsReadlink, VfsReadv, VfsWritev, IterateDir, VfsLockFile]

  /** All sixteen hooks must take fentry with the expected prototype. */
  ghost predicate FentryFamily(env: Env) {
    forall h: Hook :: env.fentryAttaches(h) && env.params(h) == ExpectedParams(h)
  }

  lemma HooksAreAll(h: Hook)
    ensures h in HOOKS
  {
    assert HOOKS[0] == VfsOpen && HOOKS[1] == VfsRead && HOOKS[2] == VfsWrite && HOOKS[3] == VfsCreate;
    assert HOOKS[4] == VfsMkdir && HOOKS[5] == VfsRmdir && HOOKS[6] == VfsSymlink && HOOKS[7] == VfsRename;
    assert HOOKS[8] == VfsGetattr && HOOKS[9] == VfsTruncate && HOOKS[10] == VfsFchmod && HOOKS[11] == VfsReadlink;
    assert HOOKS[12] == VfsReadv && HOOKS[13] == VfsWritev && HOOKS[14] == IterateDir && HOOKS[15] == VfsLockFile;
  }

  /** The family on a kernel is that of the sixteen functions with these prototypes. */
  lemma FamilyOf(env: Env)
    ensures FentryFamily(env) <==>
              && (forall h: Hook :: env.fentryAttaches(h))
              && env.params(VfsOpen) == 2 && env.params(VfsRead) == 4 && env.params(VfsWrite) == 4
              && env.params(VfsCreate) == 5 && env.params(VfsMkdir) == 4 && env.params(VfsRmdir) == 3
              && env.params(VfsSymlink) == 4 && env.params(VfsRename) == 1 && env.params(VfsGetattr) == 4
              && env.params(VfsTruncate) == 2 && env.params(VfsFchmod) == 2 && env.params(VfsReadlink) == 3
              && env.params(VfsReadv) == 5 && env.params(VfsWritev) == 5 && env.params(IterateDir) == 2
              && env.params(VfsLockFile) == 4
  {
    if FentryFamily(env) {
      assert ParamsFit(env, VfsOpen) && ParamsFit(env, VfsRead) && ParamsFit(env, VfsWrite) && ParamsFit(env, VfsCreate);
      assert ParamsFit(env, VfsMkdir) && ParamsFit(env, VfsRmdir) && ParamsFit(env, VfsSymlink) && ParamsFit(env, VfsRename);
      assert ParamsFit(env, VfsGetattr) && ParamsFit(env, VfsTruncate) && ParamsFit(env, VfsFchmod);
      assert ParamsFit(env, VfsReadlink) && ParamsFit(env, VfsReadv) && ParamsFit(env, VfsWritev);
      assert ParamsFit(env, IterateDir) && ParamsFit(env, VfsLockFile);
    }
  }

  predicate ParamsFit(env: Env, h: Hook) { env.params(h) == ExpectedParams(h) }

  method VfsFentryFamilySupported(env: Env) returns (ok: bool)
    ensures ok <==> FentryFamily(env)
  {
    var index := 0;
    while index < |HOOKS|
      invariant 0 <= index <= |HOOKS|
      invariant forall i :: 0 <= i < index ==>
        env.fentryAttaches(HOOKS[i]) && env.params(HOOKS[i]) == ExpectedParams(HOOKS[i])
    {
      if !env.fentryAttaches(HOOKS[index]) || env.params(HOOKS[index]) != ExpectedParams(HOOKS[index]) {
        return false;
      }
      index := index + 1;
    }
    forall h: Hook
      ensures env.fentryAttaches(h) && env.params(h) == ExpectedParams(h)
    {
      HooksAreAll(h);
      var i :| 0 <= i < |HOOKS| && HOOKS[i] == h;
    }
    return true;
  }

  predicate FallbackProgram(p: Program) {
    p.KprobeFallback? || p.KretprobeFallback? || p.CreateLegacyFallback?
    || p.RenameLegacyKprobeFallback? || p.RenameLegacyKretprobeFallback?
  }

  /** The hook in a fallback program's section. */
  function TargetOf(p: Program): Hook
    requires FallbackProgram(p)
  {
    match p
    case CreateLegacyFallback => VfsCreate
    case RenameLegacyKprobeFallback | RenameLegacyKretprobeFallback => VfsRename
    case _ => p.hook
  }

  class Skeleton {
    var loaded: set<Program>

    /** Programs are loaded unless the loader switches them off. */
    constructor (programs: set<Program>)
      ensures loaded == programs
    {
      loaded := programs;
    }

    method SetAutoload(p: Program, on: bool)
      modifies this
      ensures loaded == if on then old(loaded) + {p} else old(loaded) - {p}
    {
      loaded := if on then loaded + {p} else loaded - {p};
    }

    method SelectVfsHookFamily(env: Env, programs: seq<Program>)
      requires loaded == set p | p in programs
      modifies this
      ensures forall p :: p in loaded <==> p in programs && Enabled(env, p)
    {
      var useFentry := VfsFentryFamilySupported(env);
      var legacyCreate := env.params(VfsCreate) == 4;
      var legacyRename := env.params(VfsRename) == 6;
      for i := 0 to |programs|
        invariant forall p :: p in programs[..i] ==> (p in loaded <==> Enabled(env, p))
        invariant forall p :: p !in programs[..i] ==> (p in loaded <==> p in programs)
      {
        var program := programs[i];
        if program.Syscall? {
          SetAutoload(program, false);
        } else if program.Fentry? || program.Fexit? {
          SetAutoload(program, useFentry);
        } else if FallbackProgram(program) {
          var enable := !useFentry;
          if !env.present(TargetOf(program)) { enable := false; }
          if program.RenameLegacyKprobeFallback? {
            enable := enable && legacyRename;
          } else if program == KprobeFallback(VfsRename) {
            enable := enable && !legacyRename;
          } else if program == KprobeFallback(VfsCreate) {
            enable := enable && !legacyCreate;
          } else if program.CreateLegacyFallback? {
            enable := enable && legacyCreate;
          }
          SetAutoload(program, enable);
        }
        assert programs[..i + 1] == programs[..i] + [program];
      }
      assert programs[..|programs|] == programs;
    }
  }

  ghost predicate Enabled(env: Env, p: Program) {
    match p
    case Syscall(_) => false
    case Fentry(_) => FentryFamily(env)
    case Fexit(_) => FentryFamily(env)
    case Kprobe(_) => true
    case Kretprobe(_) => true
    case KprobeFallback(h) =>
      !FentryFamily(env) && env.present(h)
      && (h == VfsRename ==> env.params(h) != 6) && (h == VfsCreate ==> env.params(h) != 4)
    case KretprobeFallback(h) => !FentryFamily(env) && env.present(h)
    case CreateLegacyFallback => !FentryFamily(env) && env.present(VfsCreate) && env.params(VfsCreate) == 4
    case RenameLegacyKprobeFallback => !FentryFamily(env) && env.present(VfsRename) && env.params(VfsRename) == 6
    case RenameLegacyKretprobeFallback => !FentryFamily(env) && env.present(VfsRename)
  }

  /** System-call programs are never loaded, those that carry their own probes
      always, and of fentry programs and fallbacks only one kind. */
  lemma LoadedKinds(env: Env, p: Program)
    ensures p.Syscall? ==> !Enabled(env, p)
    ensures p.Kprobe? || p.Kretprobe? ==> Enabled(env, p)
    ensures p.Fentry? || p.Fexit? ==> (Enabled(env, p) <==> FentryFamily(env))
    ensures FallbackProgram(p) && Enabled(env, p) ==> !FentryFamily(env) && env.present(TargetOf(p))
  {}

  // ---------------------------------------------------------------------
  // Pairing
  // ---------------------------------------------------------------------

  predicate EntersAt(p: Program, h: Hook) {
    || p == Fentry(h) || p == KprobeFallback(h)
    || (h == VfsCreate && p == CreateLegacyFallback) || (h == VfsRename && p == RenameLegacyKprobeFallback)
  }

  predicate ExitsAt(p: Program, h: Hook) {
    || p == Fexit(h) || p == KretprobeFallback(h) || (h == VfsRename && p == RenameLegacyKretprobeFallback)
  }

  ghost predicate OnlyEntry(env: Env, h: Hook, p: Program) {
    forall q: Program :: EntersAt(q, h) && Enabled(env, q) <==> q == p
  }

  /** On every kernel each hook has entry and exit programs together or neither:
      with fentry always one of each; in kprobe mode, where the function exists,
      exactly one entry program, the one for its prototype, and one exit program,
      but for vfs_rename, which keeps two; where it does not exist, none. */
  lemma EntriesPairWithExits(env: Env, h: Hook)
    ensures FentryFamily(env) ==>
              && OnlyEntry(env, h, Fentry(h))
              && forall q: Program :: ExitsAt(q, h) && Enabled(env, q) <==> q == Fexit(h)
    ensures !FentryFamily(env) && env.present(h) ==>
              && OnlyEntry(env, h,
                   if h == VfsCreate && env.params(h) == 4 then CreateLegacyFallback
                   else if h == VfsRename && env.params(h) == 6 then RenameLegacyKprobeFallback
                   else KprobeFallback(h))
              && forall q: Program :: ExitsAt(q, h) && Enabled(env, q) <==>
                   q == KretprobeFallback(h) || (h == VfsRename && q == RenameLegacyKretprobeFallback)
    ensures !FentryFamily(env) && !env.present(h) ==>
              forall q: Program :: Enabled(env, q) ==> !EntersAt(q, h) && !ExitsAt(q, h)
  {}
}
