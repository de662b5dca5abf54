/** Which programs smbslower loads on which kernel. */
module SmbSelect {

  datatype Prog =
    | TraceCmdEnter | TraceCmdDone | TraceCmdErr
    | MidAllocFexit | MidAllocKretprobe | MidAllocRhel810 | MidAllocRhel810Errata
    | ReleaseKrefFentry | ReleaseKrefKprobe | ReleaseLegacyFentry | ReleaseLegacyKprobe
    | ReleaseRhel810 | ReleaseRhel810Errata | ReleaseSingleFentry | ReleaseSingleKprobe
    | ReleaseDirectFentry | ReleaseDirectKprobe

  const TRACEPOINTS: set<Prog> := {TraceCmdEnter, TraceCmdDone, TraceCmdErr}
  const ALLOCS: set<Prog> := {MidAllocFexit, MidAllocKretprobe, MidAllocRhel810, MidAllocRhel810Errata}
  const RELEASES: set<Prog> :=
    {ReleaseKrefFentry, ReleaseKrefKprobe, ReleaseLegacyFentry, ReleaseLegacyKprobe, ReleaseRhel810,
     ReleaseRhel810Errata, ReleaseSingleFentry, ReleaseSingleKprobe, ReleaseDirectFentry, ReleaseDirectKprobe}

  datatype Func = UnderReleaseMid | ReleaseMid | LegacyRelease

  const ENOENT: int := 2

  /** The kernel and module pairs whose layout has been verified. */
  datatype Build = Unverified | El8_553 | El8_553_134 | El8_553_164

  /** What the loader can find out: tracepoints, whether the module has type
      information, which verified pair runs if any, which functions fentry can
      attach to, and their parameter counts (negative when not found). */
  datatype Env = Env(skipTracepoints: bool, enter: bool, done: bool, err: bool, cifsBtf: bool, build: Build,
                     fentryAlloc: bool, fentry: Func -> bool, params: Func -> int)

  // ---------------------------------------------------------------------
  // Selection
  // ---------------------------------------------------------------------

  datatype Choice = Refused | Tracepoints | Probes(alloc: Prog, release: Prog, func: Func, params: int)

  predicate UseTracepoints(env: Env) { !env.skipTracepoints && env.enter && env.done && env.err }

  predicate FixedLayout(env: Env) { !env.cifsBtf && env.build != Unverified }

  predicate Errata(b: Build) { b == El8_553_134 || b == El8_553_164 }

  class Skeleton {
    var autoload: set<Prog>
    var autoattach: set<Prog>

    constructor ()
      ensures autoload == autoattach == TRACEPOINTS + ALLOCS + RELEASES
    {
      autoload := TRACEPOINTS + ALLOCS + RELEASES;
      autoattach := TRACEPOINTS + ALLOCS + RELEASES;
    }

    method SetEnabled(p: Prog, on: bool)
      modifies this
      ensures autoload == (if on then old(autoload) + {p} else old(autoload) - {p})
      ensures autoattach == (if on then old(autoattach) + {p} else old(autoattach) - {p})
    {
      autoload := if on then autoload + {p} else autoload - {p};
      autoattach := if on then autoattach + {p} else autoattach - {p};
    }

    method DisableAllocs()
      requires autoload == autoattach == TRACEPOINTS + ALLOCS + RELEASES
      modifies this
      ensures autoload == autoattach == RELEASES + TRACEPOINTS
    {
      SetEnabled(MidAllocFexit, false);
      SetEnabled(MidAllocKretprobe, false);
      SetEnabled(MidAllocRhel810, false);
      SetEnabled(MidAllocRhel810Errata, false);
    }

    /** The tracepoint programs and those that wait for a verified layout. */
    method DisableTracepoints()
      requires autoload == autoattach == TRACEPOINTS + ALLOCS + RELEASES
      modifies this
      ensures autoload == autoattach == RELEASES + {MidAllocFexit, MidAllocKretprobe}
    {
      SetEnabled(TraceCmdEnter, false);
      SetEnabled(TraceCmdDone, false);
      SetEnabled(TraceCmdErr, false);
      SetEnabled(MidAllocRhel810, false);
      SetEnabled(MidAllocRhel810Errata, false);
    }

    /** The allocation side, and with it the choice of tracepoints. */
    method SelectAlloc(env: Env) returns (refused: bool, fixed: bool, errata: bool)
      requires autoload == autoattach == TRACEPOINTS + ALLOCS + RELEASES
      modifies this
      ensures refused <==> !UseTracepoints(env) && !env.cifsBtf && env.build == Unverified
      ensures !UseTracepoints(env) && !refused ==> fixed == FixedLayout(env) && errata == (fixed && Errata(env.build))
      ensures !refused ==> autoload == autoattach
      ensures !refused ==> autoload == RELEASES + (if UseTracepoints(env) then TRACEPOINTS else {AllocFor(env)})
    {
      refused, fixed, errata := false, false, false;
      if UseTracepoints(env) {
        DisableAllocs();
        return;
      }
      DisableTracepoints();
      if !env.cifsBtf {
        if env.build == El8_553 {
          fixed := true;
        } else if env.build == El8_553_134 {
          fixed, errata := true, true;
        } else if env.build == El8_553_164 {
          fixed, errata := true, true;
        } else {
          refused := true;
          return;
        }
      }
      if fixed {
        SetEnabled(MidAllocFexit, false);
        SetEnabled(MidAllocKretprobe, false);
        if errata {
          SetEnabled(MidAllocRhel810Errata, true);
        } else {
          SetEnabled(MidAllocRhel810, true);
        }
      } else if env.fentryAlloc {
        SetEnabled(MidAllocKretprobe, false);
      } else {
        SetEnabled(MidAllocFexit, false);
      }
    }

    method DisablePair(p: Prog, q: Prog)
      modifies this
      ensures autoload == old(autoload) - {p, q} && autoattach == old(autoattach) - {p, q}
    {
      SetEnabled(p, false);
      SetEnabled(q, false);
    }

    method DisableReleases()
      modifies this
      ensures autoload == old(autoload) - RELEASES && autoattach == old(autoattach) - RELEASES
    {
      DisablePair(ReleaseKrefFentry, ReleaseKrefKprobe);
      DisablePair(ReleaseDirectFentry, ReleaseDirectKprobe);
      DisablePair(ReleaseLegacyFentry, ReleaseLegacyKprobe);
      DisablePair(ReleaseRhel810, ReleaseRhel810Errata);
      DisablePair(ReleaseSingleFentry, ReleaseSingleKprobe);
    }

    /** The release side, on kernels without tracepoints. */
    method SelectRelease(env: Env, fixed: bool, errata: bool) returns (refused: bool, release: Prog, func: Func, params: int)
      requires fixed == FixedLayout(env) && errata == (fixed && Errata(env.build))
      ensures func == Inspected(env) && params == InspectedParams(env)
      ensures refused <==> params != 1 && (params != 2 || func == LegacyRelease)
      ensures !refused ==> release == ReleaseFor(env, func, params)
    {
      var legacy, single := false, false;
      func, refused, release := UnderReleaseMid, false, ReleaseKrefKprobe;
      if fixed {
        func := if errata then UnderReleaseMid else LegacyRelease;
        legacy, params := true, 1;
      } else {
        params := env.params(func);
      }
      if params == -ENOENT {
        func := ReleaseMid;
        params := env.params(func);
        single := params == 1;
      }
      if params == -ENOENT {
        func, legacy := LegacyRelease, true;
        params := env.params(func);
      }
      if (params != 1 && params != 2) || (legacy && params != 1) {
        refused := true;
        return;
      }
      var canFentry := env.cifsBtf && env.fentry(func);
      if fixed {
        release := if errata then ReleaseRhel810Errata else ReleaseRhel810;
      } else if single {
        release := if canFentry then ReleaseSingleFentry else ReleaseSingleKprobe;
      } else if legacy {
        release := if canFentry then ReleaseLegacyFentry else ReleaseLegacyKprobe;
      } else if params == 2 {
        release := if canFentry then ReleaseDirectFentry else ReleaseDirectKprobe;
      } else {
        release := if canFentry then ReleaseKrefFentry else ReleaseKrefKprobe;
      }
    }

    /** The steps of the loader up to loading; on a refusal it loads nothing. */
    method Select(env: Env) returns (choice: Choice)
      requires autoload == autoattach == TRACEPOINTS + ALLOCS + RELEASES
      modifies this
      ensures choice == Choose(env)
      ensures choice.Tracepoints? ==> autoload == autoattach == TRACEPOINTS
      ensures choice.Probes? ==> autoload == autoattach == {choice.alloc, choice.release}
    {
      var refused, fixed, errata := SelectAlloc(env);
      if refused { return Refused; }
      DisableReleases();
      if UseTracepoints(env) {
        assert TRACEPOINTS !! RELEASES;
        return Tracepoints;
      }
      assert AllocFor(env) in ALLOCS && ALLOCS !! RELEASES;
      assert autoload == autoattach == {AllocFor(env)};
      var release: Prog, func: Func, params: int;
      refused, release, func, params := SelectRelease(env, fixed, errata);
      if refused { return Refused; }
      SetEnabled(release, true);
      return Probes(AllocFor(env), release, func, params);
    }
  }

  /** The function the loader inspects: the first of the three names that the
      module's type information knows. */
  function Inspected(env: Env): Func {
    if FixedLayout(env) then (if Errata(env.build) then UnderReleaseMid else LegacyRelease)
    else if env.params(UnderReleaseMid) != -ENOENT then UnderReleaseMid
    else if env.params(ReleaseMid) != -ENOENT then ReleaseMid
    else LegacyRelease
  }

  function InspectedParams(env: Env): int {
    if FixedLayout(env) then 1 else env.params(Inspected(env))
  }

  function Choose(env: Env): Choice {
    if UseTracepoints(env) then Tracepoints
    else if !env.cifsBtf && env.build == Unverified then Refused
    else
      var func, n := Inspected(env), InspectedParams(env);
      if n != 1 && (n != 2 || func == LegacyRelease) then Refused
      else Probes(AllocFor(env), ReleaseFor(env, func, n), func, n)
  }

  function AllocFor(env: Env): Prog {
    if FixedLayout(env) then (if Errata(env.build) then MidAllocRhel810Errata else MidAllocRhel810)
    else if env.fentryAlloc then MidAllocFexit else MidAllocKretprobe
  }

  function ReleaseFor(env: Env, func: Func, n: int): Prog {
    var direct := env.cifsBtf && env.fentry(func);
    if FixedLayout(env) then (if Errata(env.build) then ReleaseRhel810Errata else ReleaseRhel810)
    else if n == 2 then (if direct then ReleaseDirectFentry else ReleaseDirectKprobe)
    else match func
      case UnderReleaseMid => if direct then ReleaseKrefFentry else ReleaseKrefKprobe
      case ReleaseMid => if direct then ReleaseSingleFentry else ReleaseSingleKprobe
      case LegacyRelease => if direct then ReleaseLegacyFentry else ReleaseLegacyKprobe
  }

  /** The choice by what the kernel offers. Tracepoints win if all three are there
      and not skipped; else a module without type information needs a verified
      build, and with it one of the three functions a supported prototype. */
  lemma ChoiceOf(env: Env)
    ensures var p, q, r := env.params(UnderReleaseMid), env.params(ReleaseMid), env.params(LegacyRelease);
            var unsupported := if p != -2 then p != 1 && p != 2 else if q != -2 then q != 1 && q != 2 else r != 1;
            && (Choose(env) == Tracepoints <==> !env.skipTracepoints && env.enter && env.done && env.err)
            && (Choose(env) == Refused <==>
                  && (env.skipTracepoints || !env.enter || !env.done || !env.err)
                  && if env.cifsBtf then unsupported else env.build == Unverified)
  {}

  /** The allocation program attaches: with fexit only where fexit does, at a fixed
      layout only on its own builds. */
  lemma AllocationOf(env: Env)
    ensures Choose(env).Probes? ==>
              Choose(env).alloc ==
                if env.cifsBtf then (if env.fentryAlloc then MidAllocFexit else MidAllocKretprobe)
                else if env.build == El8_553 then MidAllocRhel810 else MidAllocRhel810Errata
  {}

  /** The release program by the first of the three functions that is known. */
  lemma ReleaseOf(env: Env)
    ensures Choose(env).Probes? ==>
              var p, q, release := env.params(UnderReleaseMid), env.params(ReleaseMid), Choose(env).release;
              if !env.cifsBtf then
                release == if env.build == El8_553 then ReleaseRhel810 else ReleaseRhel810Errata
              else if p != -2 then
                release == (if p == 1 then (if env.fentry(UnderReleaseMid) then ReleaseKrefFentry else ReleaseKrefKprobe)
                            else (if env.fentry(UnderReleaseMid) then ReleaseDirectFentry else ReleaseDirectKprobe))
              else if q != -2 then
                release == (if q == 1 then (if env.fentry(ReleaseMid) then ReleaseSingleFentry else ReleaseSingleKprobe)
                            else (if env.fentry(ReleaseMid) then ReleaseDirectFentry else ReleaseDirectKprobe))
              else
                release == if env.fentry(LegacyRelease) then ReleaseLegacyFentry else ReleaseLegacyKprobe
  {}

  /** Without type information, the offsets each build's programs read at. */
  lemma FixedOffsets(env: Env, refcount: int, refcountOffset: int)
    requires !env.cifsBtf && Choose(env).Probes?
    ensures LayoutReadBy(Choose(env).alloc) == if env.build == El8_553 then Fixed(32, 124) else Fixed(24, 40)
    ensures KeyFrom(Choose(env).release, [refcount], refcountOffset) == refcount - 16
    ensures HookOf(Choose(env).release) == if env.build == El8_553 then LegacyRelease else UnderReleaseMid
  {}

  // ---------------------------------------------------------------------
  // What the selected programs do
  // ---------------------------------------------------------------------

  /** The function a release program is attached to. */
  function HookOf(p: Prog): Func {
    match p
    case ReleaseSingleFentry | ReleaseSingleKprobe => ReleaseMid
    case ReleaseLegacyFentry | ReleaseLegacyKprobe | ReleaseRhel810 => LegacyRelease
    case _ => UnderReleaseMid
  }

  /** How the kernel calls a release function for the entry at address mid: with
      its reference count, with the entry, or with the server and the entry. */
  function CallArgs(f: Func, params: int, mid: int, server: int, refcountOffset: int): seq<int> {
    if params == 2 then [server, mid]
    else if f == ReleaseMid then [mid]
    else [mid + refcountOffset]
  }

  const RHEL_810_REFCOUNT_OFFSET: int := 16

  /** The map key a release program computes from its arguments; the general
      programs know the offset from the module's type information. */
  function KeyFrom(p: Prog, args: seq<int>, refcountOffset: int): int
    requires |args| > 0
  {
    match p
    case ReleaseDirectFentry | ReleaseDirectKprobe => if |args| > 1 then args[1] else 0
    case ReleaseSingleFentry | ReleaseSingleKprobe => args[0]
    case ReleaseRhel810 | ReleaseRhel810Errata => args[0] - RHEL_810_REFCOUNT_OFFSET
    case _ => args[0] - refcountOffset
  }

  /** Offsets of request id and command in the entry. */
  datatype Layout = ByTypeInfo | Fixed(midOffset: nat, commandOffset: nat)

  function LayoutOf(b: Build): Layout {
    match b
    case Unverified => ByTypeInfo
    case El8_553 => Fixed(32, 124)
    case _ => Fixed(24, 40)
  }

  function LayoutReadBy(alloc: Prog): Layout {
    match alloc
    case MidAllocRhel810 => Fixed(32, 124)
    case MidAllocRhel810Errata => Fixed(24, 40)
    case _ => ByTypeInfo
  }

  /** On every kernel the loader refuses, or keeps the three tracepoint programs,
      or one allocation and one release program; a fixed layout is only read on
      the build it belongs to, fixed programs only go with fixed programs and
      errata with errata, and fentry programs only where fentry attaches. */
  lemma SelectionIsConsistent(env: Env)
    ensures var c := Choose(env);
            c.Probes? ==>
              && c.alloc in ALLOCS && c.release in RELEASES
              && LayoutReadBy(c.alloc) == (if env.cifsBtf then ByTypeInfo else LayoutOf(env.build))
              && (c.alloc == MidAllocRhel810 <==> c.release == ReleaseRhel810)
              && (c.alloc == MidAllocRhel810Errata <==> c.release == ReleaseRhel810Errata)
              && (c.release in {ReleaseKrefFentry, ReleaseLegacyFentry, ReleaseSingleFentry, ReleaseDirectFentry} ==>
                    env.cifsBtf && env.fentry(c.func))
  {}

  /** On every kernel where probes are selected, the release program computes the
      key under which the allocation program filed the entry. It hooks the
      function the loader inspected, but on a kernel without a fixed layout that
      does not know __release_mid and whose release_mid takes two parameters. */
  lemma ReleaseFindsWhatAllocFiled(env: Env, mid: int, server: int, refcountOffset: int)
    requires FixedLayout(env) ==> refcountOffset == RHEL_810_REFCOUNT_OFFSET
    ensures var c := Choose(env);
            c.Probes? ==>
              && (HookOf(c.release) != c.func <==>
                    !FixedLayout(env) && env.params(UnderReleaseMid) == -ENOENT && env.params(ReleaseMid) == 2)
              && KeyFrom(c.release, CallArgs(c.func, c.params, mid, server, refcountOffset), refcountOffset) == mid
  {}

  /** A kernel that misses its hook: only a two-parameter release_mid is there,
      the program chosen for it is attached to __release_mid. */
  lemma TwoParameterReleaseMidMissesHook()
    ensures var env := Env(true, false, false, false, true, Unverified, true, _ => true,
                           f => if f == ReleaseMid then 2 else -ENOENT);
            Choose(env) == Probes(MidAllocFexit, ReleaseDirectFentry, ReleaseMid, 2)
            && HookOf(ReleaseDirectFentry) != ReleaseMid
  {}
}
