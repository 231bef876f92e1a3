/** The stamps and the claim that let a Lustre build skip configure in a source
    tree shared by many targets, kernels, variants and configure lines.

    The tree lock serialises builds, so a run is a sequence of builds; each one
    may die between any two steps, and files may be cleaned away between builds. */
module LustreTree {
  import opened Text

  /** The configure command line and the ZFS version ("" for none). */
  datatype Flags = Flags(cfg: string, zfs: string)

  datatype Build = Build(
    target: string, arch: string, variant: string, kver: string,
    server: bool, flags: Flags, force: bool)

  /** What the source tree holds.  `status` is config.status, as the build whose
      configure run generated it; stamps are keyed by `target-arch`. */
  datatype Tree = Tree(
    configure: bool,
    status: Option<Build>,
    claim: Option<string>,
    kernelStamp: map<string, string>,
    serverStamp: map<string, bool>,
    cfgStamp: map<string, string>,
    libtool: string)

  /** Names hold no white space, and the kernel release was read with strip. */
  predicate WellNamed(b: Build) {
    && b.target != "" && b.arch != "" && b.variant != ""
    && (forall c :: c in b.target + b.arch + b.variant ==> !IsSpace(c))
    && Stripped(b.kver)
  }

  predicate SameTree(a: Build, b: Build) {
    a.target == b.target && a.arch == b.arch && a.variant == b.variant && a.kver == b.kver
  }

  // ---- names of stamps and claims -------------------------------------------

  function Suffix(b: Build): string { b.target + "-" + b.arch }

  function ClaimText(b: Build): string {
    b.target + " " + b.arch + " " + b.variant + " " + b.kver
  }

  /** The text whose SHA-256 is the configure stamp. */
  function StampText(f: Flags): string {
    if f.zfs == "" then f.cfg else f.cfg + "\0zfs=" + f.zfs
  }

  function StampHash(sha: string -> string, b: Build): string { sha(StampText(b.flags)) }

  lemma CutFirst(x: string, y: string, x': string, y': string, c: char)
    requires c !in x && c !in x'
    requires x + [c] + y == x' + [c] + y'
    ensures x == x' && y == y'
  {
    IndexOfFirst(x, c, y);
    IndexOfFirst(x', c, y');
    var t := x + [c] + y;
    assert x == t[..|x|] == t[..|x'|] == x';
    assert y == t[|x| + 1..] == y';
  }

  /** A claim read back names one identity only, and never an empty release. */
  lemma ClaimNamesOneBuild(a: Build, b: Build)
    requires WellNamed(a) && WellNamed(b)
    requires Strip(ClaimText(a) + "\n") == ClaimText(b)
    ensures SameTree(a, b) && a.kver != ""
  {
    StrippedClaim(a);
    NoSpaceInside(a);
    NoSpaceInside(b);
    if a.kver == "" {
      TwoFieldsAreNotThree(a.target, a.arch, a.variant, b.target, b.arch, b.variant, b.kver);
    } else {
      FieldsAreEqual(a.target, a.arch, a.variant, a.kver, b.target, b.arch, b.variant, b.kver);
    }
  }

  /** A claim as it is read back: without a release its last space is gone. */
  lemma StrippedClaim(b: Build)
    requires WellNamed(b)
    ensures Strip(ClaimText(b) + "\n")
            == if b.kver == "" then b.target + " " + b.arch + " " + b.variant else ClaimText(b)
  {
    var s := ClaimText(b);
    assert s[0] == b.target[0] && b.target[0] in b.target + b.arch + b.variant;
    StripLine(s);
    if b.kver == "" {
      var u := b.target + " " + b.arch + " " + b.variant;
      assert s == u + " " && s[..|s| - 1] == u;
      assert u[|u| - 1] == b.variant[|b.variant| - 1] && b.variant[|b.variant| - 1] in b.target + b.arch + b.variant;
    } else {
      assert s[|s| - 1] == b.kver[|b.kver| - 1];
    }
  }

  lemma FieldsAreEqual(t: string, a: string, v: string, k: string, t': string, a': string, v': string, k': string)
    requires ' ' !in t && ' ' !in a && ' ' !in v && ' ' !in t' && ' ' !in a' && ' ' !in v'
    requires t + " " + a + " " + v + " " + k == t' + " " + a' + " " + v' + " " + k'
    ensures t == t' && a == a' && v == v' && k == k'
  {
    assert t + " " + a + " " + v + " " + k == t + [' '] + (a + [' '] + (v + [' '] + k));
    assert t' + " " + a' + " " + v' + " " + k' == t' + [' '] + (a' + [' '] + (v' + [' '] + k'));
    CutFirst(t, a + [' '] + (v + [' '] + k), t', a' + [' '] + (v' + [' '] + k'), ' ');
    CutFirst(a, v + [' '] + k, a', v' + [' '] + k', ' ');
    CutFirst(v, k, v', k', ' ');
  }

  lemma TwoFieldsAreNotThree(t: string, a: string, v: string, t': string, a': string, v': string, k': string)
    requires ' ' !in t && ' ' !in a && ' ' !in v && ' ' !in t' && ' ' !in a'
    ensures t + " " + a + " " + v != t' + " " + a' + " " + v' + " " + k'
  {
    var rest := v' + " " + k';
    assert rest[|v'|] == ' ';
    if t + " " + a + " " + v == t' + " " + a' + " " + v' + " " + k' {
      assert t + " " + a + " " + v == t + [' '] + (a + [' '] + v);
      assert t' + " " + a' + " " + v' + " " + k' == t' + [' '] + (a' + [' '] + rest);
      CutFirst(t, a + [' '] + v, t', a' + [' '] + rest, ' ');
      CutFirst(a, v, a', rest, ' ');
    }
  }

  lemma NoSpaceInside(b: Build)
    requires WellNamed(b)
    ensures ' ' !in b.target && ' ' !in b.arch && ' ' !in b.variant
  {
    assert ' ' in b.target || ' ' in b.arch || ' ' in b.variant ==> ' ' in b.target + b.arch + b.variant;
  }

  /** A build recognises its own claim exactly when its kernel release is not empty. */
  lemma OwnClaimReadsBack(b: Build)
    requires WellNamed(b)
    ensures Strip(ClaimText(b) + "\n") == ClaimText(b) <==> b.kver != ""
  {
    var s := ClaimText(b);
    assert s[0] == b.target[0] && b.target[0] in b.target + b.arch + b.variant;
    StripLine(s);
    if b.kver != "" {
      assert s[|s| - 1] == b.kver[|b.kver| - 1];
    } else {
      assert s[|s| - 1] == ' ';
      TrimEndKeepsStart(s);
    }
  }

  /** Without NUL in the command line, equal stamp texts mean equal flags. */
  lemma StampTextInjective(f: Flags, g: Flags)
    requires '\0' !in f.cfg && '\0' !in g.cfg
    requires StampText(f) == StampText(g)
    ensures f == g
  {
    var m := "zfs=";
    assert f.zfs != "" ==> StampText(f) == f.cfg + ['\0'] + (m + f.zfs);
    assert g.zfs != "" ==> StampText(g) == g.cfg + ['\0'] + (m + g.zfs);
    assert f.zfs != "" ==> StampText(f)[|f.cfg|] == '\0';
    assert g.zfs != "" ==> StampText(g)[|g.cfg|] == '\0';
    if f.zfs != "" && g.zfs != "" {
      CutFirst(f.cfg, m + f.zfs, g.cfg, m + g.zfs, '\0');
      assert f.zfs == (m + f.zfs)[4..] == (m + g.zfs)[4..] == g.zfs;
    }
  }

  // ---- the host-side decision ------------------------------------------------

  predicate KernelChanged(t: Tree, b: Build) {
    exists s :: s in t.kernelStamp && t.kernelStamp[s] != b.kver
  }

  predicate ClaimChanged(t: Tree, b: Build) {
    match t.claim
    case Some(text) => Strip(text) != ClaimText(b)
    case None => KernelChanged(t, b)
  }

  /** `newer`: an autoconf input is newer than the configure script. */
  predicate NeedsReconfigure(t: Tree, b: Build, force: bool, newer: bool) {
    || force || !t.configure || t.status.None? || newer
    || Suffix(b) !in t.kernelStamp || t.kernelStamp[Suffix(b)] != b.kver
    || Suffix(b) !in t.serverStamp || t.serverStamp[Suffix(b)] != b.server
  }

  datatype Plan = Plan(force: bool, reconf: bool)

  function HostPlan(sha: string -> string, t: Tree, b: Build, newer: bool): Plan {
    var force := b.force || ClaimChanged(t, b);
    Plan(force,
         || NeedsReconfigure(t, b, force, newer)
         || Suffix(b) !in t.cfgStamp || t.cfgStamp[Suffix(b)] != StampHash(sha, b))
  }

  function Unlink(t: Tree, b: Build, p: Plan): Tree {
    if p.reconf then t.(cfgStamp := t.cfgStamp - {Suffix(b)}) else t
  }

  // ---- the container script ---------------------------------------------------

  const SCRIPT_STEPS := 8

  /** One run of the script: how many steps it finished, and what its best-effort
      steps did (distclean may fail, configure may drop config.status before it
      writes a new one). */
  datatype Attempt = Attempt(steps: nat, distcleaned: bool, dropsConfigure: bool, dropsStatus: bool)

  predicate RunsConfigure(t: Tree, p: Plan, libtool: string) {
    p.reconf || libtool != t.libtool
  }

  function ScriptStep(t: Tree, b: Build, p: Plan, libtool: string, a: Attempt, i: nat): Tree {
    match i
    case 0 => if p.force && a.distcleaned then t.(status := None) else t
    case 1 => if p.reconf && a.dropsConfigure then t.(configure := false) else t
    case 2 => t.(claim := Some(ClaimText(b) + "\n"))
    case 3 => if RunsConfigure(t, p, libtool) then t.(configure := true) else t
    case 4 => if RunsConfigure(t, p, libtool) && a.dropsStatus then t.(status := None) else t
    case 5 => if RunsConfigure(t, p, libtool) then t.(status := Some(b)) else t
    case 6 => if RunsConfigure(t, p, libtool) then t.(libtool := libtool) else t
    case _ => t   // make and make install
  }

  /** The tree after the first `n` steps of the script. */
  function Script(t: Tree, b: Build, p: Plan, libtool: string, a: Attempt, n: nat): Tree {
    if n == 0 then t
    else ScriptStep(Script(t, b, p, libtool, a, n - 1), b, p, libtool, a, n - 1)
  }

  function Done(a: Attempt): nat { if a.steps < SCRIPT_STEPS then a.steps else SCRIPT_STEPS }

  /** Attempts one after another: a second one follows a failed first one. */
  function Attempts(t: Tree, b: Build, p: Plan, libtool: string, s: seq<Attempt>): Tree
    decreases |s|
  {
    if s == [] then t
    else Attempts(Script(t, b, p, libtool, s[0], Done(s[0])), b, p, libtool, s[1..])
  }

  /** How one build goes: the autoconf inputs seen, whether it got past the host
      check, its attempts, and how many of the three final stamps it wrote. */
  datatype Fate = Fate(newer: bool, started: bool, libtool: string, attempts: seq<Attempt>, stamps: nat)

  predicate Finished(f: Fate) {
    f.started && f.attempts != [] && f.attempts[|f.attempts| - 1].steps >= SCRIPT_STEPS
  }

  predicate Succeeded(f: Fate) { Finished(f) && f.stamps >= 3 }

  function WriteStamps(sha: string -> string, t: Tree, b: Build, n: nat): Tree {
    var s := Suffix(b);
    var t1 := if n >= 1 then t.(kernelStamp := t.kernelStamp[s := b.kver]) else t;
    var t2 := if n >= 2 then t1.(serverStamp := t1.serverStamp[s := b.server]) else t1;
    if n >= 3 then t2.(cfgStamp := t2.cfgStamp[s := StampHash(sha, b)]) else t2
  }

  function AfterBuild(sha: string -> string, t: Tree, b: Build, f: Fate): Tree {
    if !f.started then t
    else
      var p := HostPlan(sha, t, b, f.newer);
      var u := Attempts(Unlink(t, b, p), b, p, f.libtool, f.attempts);
      if Finished(f) then WriteStamps(sha, u, b, f.stamps) else u
  }

  // ---- what every build keeps ---------------------------------------------------

  ghost predicate Claims(t: Tree, b: Build) {
    t.claim.Some? && Strip(t.claim.value) == ClaimText(b)
  }

  predicate Matches(sha: string -> string, g: Build, b: Build) {
    SameTree(g, b) && StampHash(sha, g) == StampHash(sha, b)
  }

  /** The configure stamp of the claimant vouches for config.status. */
  ghost predicate Inv(sha: string -> string, t: Tree) {
    && (t.claim.None? ==> t.kernelStamp.Keys == {})
    && (forall b: Build :: WellNamed(b) && Claims(t, b) && Suffix(b) in t.cfgStamp && t.status.Some? ==>
          SameTree(t.status.value, b) && StampHash(sha, t.status.value) == t.cfgStamp[Suffix(b)])
  }

  /** What holds between the steps of a build, step `i` of the script coming next. */
  ghost predicate Mid(sha: string -> string, t: Tree, b: Build, p: Plan, libtool: string, i: nat) {
    && WellNamed(b) && Inv(sha, t) && (p.force ==> p.reconf)
    && (p.reconf ==> Suffix(b) !in t.cfgStamp)
    && (!p.reconf ==> Claims(t, b) && Suffix(b) in t.cfgStamp && t.cfgStamp[Suffix(b)] == StampHash(sha, b))
    && (!p.reconf ==> t.configure && (libtool == t.libtool ==> t.status.Some?))
    && (i >= 3 ==> t.claim == Some(ClaimText(b) + "\n"))
    && (i >= 4 ==> t.configure)
    && (i >= 6 ==> t.status.Some? && Matches(sha, t.status.value, b))
    && (i >= 7 ==> t.libtool == libtool)
  }

  lemma UnlinkStartsBuild(sha: string -> string, t: Tree, b: Build, newer: bool, libtool: string)
    requires Inv(sha, t) && WellNamed(b)
    ensures var p := HostPlan(sha, t, b, newer); Mid(sha, Unlink(t, b, p), b, p, libtool, 0)
  {
    var p := HostPlan(sha, t, b, newer);
    if !p.reconf {
      assert Suffix(b) in t.kernelStamp.Keys;
    }
  }

  lemma ScriptStepKeeps(sha: string -> string, t: Tree, b: Build, p: Plan, libtool: string, a: Attempt, i: nat)
    requires i < SCRIPT_STEPS && Mid(sha, t, b, p, libtool, i)
    ensures Mid(sha, ScriptStep(t, b, p, libtool, a, i), b, p, libtool, i + 1)
  {
    if i == 2 {
      ClaimStepKeeps(sha, t, b, p, libtool);
    } else if i == 5 {
      StatusStepKeeps(sha, t, b, p, libtool);
    } else {
      InvFrame(sha, t, ScriptStep(t, b, p, libtool, a, i));
    }
  }

  lemma InvFrame(sha: string -> string, t: Tree, u: Tree)
    requires Inv(sha, t)
    requires u.claim == t.claim && u.kernelStamp == t.kernelStamp && u.cfgStamp == t.cfgStamp
    requires u.status == t.status || u.status.None?
    ensures Inv(sha, u)
  {
    assert forall c: Build :: Claims(u, c) == Claims(t, c);
  }

  /** The configure step: either it writes config.status, or what is there matches. */
  lemma StatusStepKeeps(sha: string -> string, t: Tree, b: Build, p: Plan, libtool: string)
    requires Mid(sha, t, b, p, libtool, 5)
    ensures var u := if RunsConfigure(t, p, libtool) then t.(status := Some(b)) else t;
            Mid(sha, u, b, p, libtool, 6)
  {
    if RunsConfigure(t, p, libtool) {
      var u := t.(status := Some(b));
      forall c: Build | WellNamed(c) && Claims(u, c) ensures SameTree(b, c) && Suffix(b) == Suffix(c) {
        ClaimNamesOneBuild(b, c);
      }
    }
  }

  lemma ClaimStepKeeps(sha: string -> string, t: Tree, b: Build, p: Plan, libtool: string)
    requires Mid(sha, t, b, p, libtool, 2)
    ensures Mid(sha, t.(claim := Some(ClaimText(b) + "\n")), b, p, libtool, 3)
  {
    var u := t.(claim := Some(ClaimText(b) + "\n"));
    OwnClaimReadsBack(b);
    if !p.reconf {
      StripFixed(t.claim.value);
      OwnClaimStripped(b);
    }
    forall c: Build | WellNamed(c) && Claims(u, c) ensures SameTree(b, c) && Suffix(b) == Suffix(c) && b.kver != "" {
      ClaimNamesOneBuild(b, c);
    }
    forall c: Build | WellNamed(c) && Claims(u, c) && Suffix(c) in u.cfgStamp && u.status.Some?
      ensures SameTree(u.status.value, c) && StampHash(sha, u.status.value) == u.cfgStamp[Suffix(c)]
    {
      assert Claims(t, c);
    }
  }

  lemma OwnClaimStripped(b: Build)
    requires WellNamed(b)
    ensures Stripped(ClaimText(b)) ==> b.kver != ""
  {
    var s := ClaimText(b);
    assert b.kver == "" ==> s[|s| - 1] == ' ';
  }

  lemma {:induction false} ScriptKeeps(sha: string -> string, t: Tree, b: Build, p: Plan, libtool: string, a: Attempt,
                                       n: nat)
    requires n <= SCRIPT_STEPS && Mid(sha, t, b, p, libtool, 0)
    ensures Mid(sha, Script(t, b, p, libtool, a, n), b, p, libtool, n)
  {
    if n > 0 {
      ScriptKeeps(sha, t, b, p, libtool, a, n - 1);
      ScriptStepKeeps(sha, Script(t, b, p, libtool, a, n - 1), b, p, libtool, a, n - 1);
    }
  }

  lemma {:induction false} AttemptsKeep(sha: string -> string, t: Tree, b: Build, p: Plan, libtool: string,
                                        s: seq<Attempt>)
    requires Mid(sha, t, b, p, libtool, 0)
    ensures Mid(sha, Attempts(t, b, p, libtool, s), b, p, libtool, 0)
    ensures s != [] && s[|s| - 1].steps >= SCRIPT_STEPS ==>
              Mid(sha, Attempts(t, b, p, libtool, s), b, p, libtool, SCRIPT_STEPS)
    decreases |s|
  {
    if s != [] {
      ScriptKeeps(sha, t, b, p, libtool, s[0], Done(s[0]));
      AttemptsKeep(sha, Script(t, b, p, libtool, s[0], Done(s[0])), b, p, libtool, s[1..]);
      assert |s| > 1 ==> s[1..][|s| - 2] == s[|s| - 1];
    }
  }

  lemma StampsKeep(sha: string -> string, t: Tree, b: Build, p: Plan, libtool: string, n: nat)
    requires Mid(sha, t, b, p, libtool, SCRIPT_STEPS)
    ensures Inv(sha, WriteStamps(sha, t, b, n))
  {
    var u := WriteStamps(sha, t, b, n);
    forall c: Build | WellNamed(c) && Claims(u, c) ensures SameTree(b, c) && Suffix(b) == Suffix(c) {
      ClaimNamesOneBuild(b, c);
    }
  }

  /** A build keeps the invariant wherever it dies. */
  lemma BuildKeeps(sha: string -> string, t: Tree, b: Build, f: Fate)
    requires Inv(sha, t) && WellNamed(b)
    ensures Inv(sha, AfterBuild(sha, t, b, f))
  {
    if f.started {
      var p := HostPlan(sha, t, b, f.newer);
      UnlinkStartsBuild(sha, t, b, f.newer, f.libtool);
      AttemptsKeep(sha, Unlink(t, b, p), b, p, f.libtool, f.attempts);
      if Finished(f) {
        StampsKeep(sha, Attempts(Unlink(t, b, p), b, p, f.libtool, f.attempts), b, p, f.libtool, f.stamps);
      }
    }
  }

  // ---- safety over whole runs ----------------------------------------------------

  /** Wherever attempt `k` of the build skips configure, or reaches make, it finds a
      config.status generated for its own target, arch, variant, kernel release and
      configure hash. */
  predicate BuildSafe(sha: string -> string, t: Tree, b: Build, f: Fate) {
    f.started ==>
      var p := HostPlan(sha, t, b, f.newer);
      forall k :: 0 <= k < |f.attempts| ==>
        AttemptSafe(sha, Attempts(Unlink(t, b, p), b, p, f.libtool, f.attempts[..k]), b, p, f.libtool, f.attempts[k])
  }

  predicate AttemptSafe(sha: string -> string, t: Tree, b: Build, p: Plan, libtool: string, a: Attempt) {
    && (var u := Script(t, b, p, libtool, a, 3);
        a.steps >= 3 && !RunsConfigure(u, p, libtool) ==> u.status.Some? && Matches(sha, u.status.value, b))
    && (var u := Script(t, b, p, libtool, a, 7);
        a.steps >= 7 ==> u.status.Some? && Matches(sha, u.status.value, b))
  }

  lemma AttemptIsSafe(sha: string -> string, t: Tree, b: Build, p: Plan, libtool: string, a: Attempt)
    requires Mid(sha, t, b, p, libtool, 0)
    ensures AttemptSafe(sha, t, b, p, libtool, a)
  {
    ScriptKeeps(sha, t, b, p, libtool, a, 3);
    ScriptKeeps(sha, t, b, p, libtool, a, 7);
  }

  lemma BuildIsSafe(sha: string -> string, t: Tree, b: Build, f: Fate)
    requires Inv(sha, t) && WellNamed(b)
    ensures BuildSafe(sha, t, b, f)
  {
    if f.started {
      var p := HostPlan(sha, t, b, f.newer);
      UnlinkStartsBuild(sha, t, b, f.newer, f.libtool);
      forall k | 0 <= k < |f.attempts|
        ensures AttemptSafe(sha, Attempts(Unlink(t, b, p), b, p, f.libtool, f.attempts[..k]), b, p, f.libtool,
                f.attempts[k])
      {
        AttemptsKeep(sha, Unlink(t, b, p), b, p, f.libtool, f.attempts[..k]);
        AttemptIsSafe(sha, Attempts(Unlink(t, b, p), b, p, f.libtool, f.attempts[..k]), b, p, f.libtool, f.attempts[k]);
      }
    }
  }

  /** Between builds files may go away: config.status, the configure script, stamps;
      the claim only together with every stamp (a wiped tree). */
  datatype Event =
    | Built(b: Build, fate: Fate)
    | Cleaned(status: bool, configure: bool, stamps: set<string>)
    | Wiped

  function AfterEvent(sha: string -> string, t: Tree, e: Event): Tree {
    match e
    case Built(b, f) => AfterBuild(sha, t, b, f)
    case Cleaned(st, cf, ss) =>
      t.(status := if st then None else t.status, configure := t.configure && !cf,
         kernelStamp := t.kernelStamp - ss, serverStamp := t.serverStamp - ss, cfgStamp := t.cfgStamp - ss)
    case Wiped => Tree(false, None, None, map[], map[], map[], "")
  }

  function AfterEvents(sha: string -> string, t: Tree, es: seq<Event>): Tree {
    if es == [] then t
    else AfterEvent(sha, AfterEvents(sha, t, es[..|es| - 1]), es[|es| - 1])
  }

  /** A tree ltvm has not built in: it may hold anybody's config.status. */
  predicate Fresh(t: Tree) {
    t.claim.None? && t.kernelStamp == map[] && t.serverStamp == map[] && t.cfgStamp == map[]
  }

  predicate Named(es: seq<Event>) {
    forall i :: 0 <= i < |es| && es[i].Built? ==> WellNamed(es[i].b)
  }

  lemma {:induction false} RunKeeps(sha: string -> string, t: Tree, es: seq<Event>)
    requires Fresh(t) && Named(es)
    ensures Inv(sha, AfterEvents(sha, t, es))
  {
    if es != [] {
      var prev := es[..|es| - 1];
      RunKeeps(sha, t, prev);
      var u := AfterEvents(sha, t, prev);
      match es[|es| - 1] {
        case Built(b, f) => BuildKeeps(sha, u, b, f);
        case Cleaned(st, cf, ss) =>
          var v := AfterEvent(sha, u, es[|es| - 1]);
          forall c: Build | WellNamed(c) && Claims(v, c) && Suffix(c) in v.cfgStamp && v.status.Some?
            ensures SameTree(v.status.value, c) && StampHash(sha, v.status.value) == v.cfgStamp[Suffix(c)]
          {
            assert Claims(u, c);
          }
        case Wiped =>
      }
    }
  }

  /** Over every run from a fresh tree, every build is safe. */
  lemma EveryBuildOfEveryRunIsSafe(sha: string -> string, t: Tree, es: seq<Event>, i: nat)
    requires Fresh(t) && Named(es)
    requires i < |es| && es[i].Built?
    ensures BuildSafe(sha, AfterEvents(sha, t, es[..i]), es[i].b, es[i].fate)
  {
    RunKeeps(sha, t, es[..i]);
    BuildIsSafe(sha, AfterEvents(sha, t, es[..i]), es[i].b, es[i].fate);
  }

  /** With a collision-free hash, a matching config.status carries the very same
      configure line and ZFS version. */
  lemma MatchingStatusHasSameFlags(sha: string -> string, g: Build, b: Build)
    requires forall x, y :: sha(x) == sha(y) ==> x == y
    requires '\0' !in g.flags.cfg && '\0' !in b.flags.cfg
    ensures Matches(sha, g, b) <==> SameTree(g, b) && g.flags == b.flags
  {
    if Matches(sha, g, b) {
      StampTextInjective(g.flags, b.flags);
    }
  }

  // ---- incremental rebuilds --------------------------------------------------------

  /** Everything a repeat of `b` looks at is in place. */
  ghost predicate BuiltFor(sha: string -> string, t: Tree, b: Build, libtool: string) {
    && t.claim == Some(ClaimText(b) + "\n") && t.configure && t.status.Some? && t.libtool == libtool
    && Suffix(b) in t.kernelStamp && t.kernelStamp[Suffix(b)] == b.kver
    && Suffix(b) in t.serverStamp && t.serverStamp[Suffix(b)] == b.server
    && Suffix(b) in t.cfgStamp && t.cfgStamp[Suffix(b)] == StampHash(sha, b)
  }

  lemma SuccessReachesTheEnd(sha: string -> string, t: Tree, b: Build, f: Fate)
    requires Inv(sha, t) && WellNamed(b) && Succeeded(f)
    ensures var p := HostPlan(sha, t, b, f.newer);
            Mid(sha, Attempts(Unlink(t, b, p), b, p, f.libtool, f.attempts), b, p, f.libtool, SCRIPT_STEPS)
  {
    var p := HostPlan(sha, t, b, f.newer);
    UnlinkStartsBuild(sha, t, b, f.newer, f.libtool);
    AttemptsKeep(sha, Unlink(t, b, p), b, p, f.libtool, f.attempts);
  }

  lemma SuccessLeavesTreeBuilt(sha: string -> string, t: Tree, b: Build, f: Fate)
    requires Inv(sha, t) && WellNamed(b) && Succeeded(f)
    ensures BuiltFor(sha, AfterBuild(sha, t, b, f), b, f.libtool)
  {
    SuccessReachesTheEnd(sha, t, b, f);
  }

  /** After a success, the same build again neither distcleans nor reconfigures, unless
      the kernel tree has no release string: then it always distcleans. */
  lemma RepeatIsIncremental(sha: string -> string, t: Tree, b: Build, libtool: string)
    requires WellNamed(b) && !b.force && BuiltFor(sha, t, b, libtool)
    ensures var p := HostPlan(sha, t, b, false);
            if b.kver != "" then !p.force && !p.reconf && !RunsConfigure(t, p, libtool)
            else p.force && p.reconf
  {
    OwnClaimReadsBack(b);
  }

  /** A repeat that dies anywhere leaves the tree as ready as it found it. */
  lemma FailedRepeatStaysIncremental(sha: string -> string, t: Tree, b: Build, f: Fate)
    requires WellNamed(b) && !b.force && b.kver != "" && BuiltFor(sha, t, b, f.libtool) && !f.newer
    ensures BuiltFor(sha, AfterBuild(sha, t, b, f), b, f.libtool)
  {
    if f.started {
      RepeatIsIncremental(sha, t, b, f.libtool);
      var p := HostPlan(sha, t, b, false);
      IncrementalAttempts(t, b, p, f.libtool, f.attempts);
    }
  }

  lemma {:induction false} IncrementalScript(t: Tree, b: Build, p: Plan, a: Attempt, n: nat)
    requires !p.force && !p.reconf && t.claim == Some(ClaimText(b) + "\n")
    ensures Script(t, b, p, t.libtool, a, n) == t
  {
    if n > 0 {
      IncrementalScript(t, b, p, a, n - 1);
    }
  }

  lemma {:induction false} IncrementalAttempts(t: Tree, b: Build, p: Plan, libtool: string, s: seq<Attempt>)
    requires !p.force && !p.reconf && t.claim == Some(ClaimText(b) + "\n") && t.libtool == libtool
    ensures Attempts(t, b, p, libtool, s) == t
    decreases |s|
  {
    if s != [] {
      IncrementalScript(t, b, p, s[0], Done(s[0]));
      IncrementalAttempts(t, b, p, libtool, s[1..]);
    }
  }

  /** A tree claimed by one identity is distcleaned by every other one. */
  lemma SwitchForcesDistclean(sha: string -> string, t: Tree, a: Build, b: Build, newer: bool)
    requires WellNamed(a) && WellNamed(b) && !SameTree(a, b)
    requires t.claim == Some(ClaimText(a) + "\n")
    ensures HostPlan(sha, t, b, newer) == Plan(true, true)
  {
    if Strip(ClaimText(a) + "\n") == ClaimText(b) {
      ClaimNamesOneBuild(a, b);
    }
  }

  // ---- what safety rests on ----------------------------------------------------------

  /** Names with spaces in them would make one claim stand for two identities. */
  lemma SpacedNamesShareAClaim(b: Build, x: string, y: string, z: string)
    requires y != ""
    ensures var p := b.(target := x, arch := y + " " + z); var q := b.(target := x + " " + y, arch := z);
            ClaimText(p) == ClaimText(q) && !SameTree(p, q)
  {
    var p, q := b.(target := x, arch := y + " " + z), b.(target := x + " " + y, arch := z);
    assert x + " " + (y + " " + z) == x + " " + y + " " + z;
    assert |q.target| > |p.target|;
  }

  lemma {:induction false} ScriptKeepsStamps(t: Tree, b: Build, p: Plan, libtool: string, a: Attempt, n: nat)
    ensures var u := Script(t, b, p, libtool, a, n);
            u.kernelStamp == t.kernelStamp && u.serverStamp == t.serverStamp && u.cfgStamp == t.cfgStamp
  {
    if n > 0 {
      ScriptKeepsStamps(t, b, p, libtool, a, n - 1);
    }
  }

  lemma {:induction false} AttemptsKeepStamps(t: Tree, b: Build, p: Plan, libtool: string, s: seq<Attempt>)
    ensures var u := Attempts(t, b, p, libtool, s);
            u.kernelStamp == t.kernelStamp && u.serverStamp == t.serverStamp && u.cfgStamp == t.cfgStamp
    decreases |s|
  {
    if s != [] {
      ScriptKeepsStamps(t, b, p, libtool, s[0], Done(s[0]));
      AttemptsKeepStamps(Script(t, b, p, libtool, s[0], Done(s[0])), b, p, libtool, s[1..]);
    }
  }

  /** A successful build stamps its own target and leaves the stamps of others alone. */
  lemma SuccessStamps(sha: string -> string, t: Tree, b: Build, f: Fate)
    requires Succeeded(f)
    ensures var u := AfterBuild(sha, t, b, f);
            && u.kernelStamp == t.kernelStamp[Suffix(b) := b.kver]
              && u.serverStamp == t.serverStamp[Suffix(b) := b.server]
            && forall s :: s in t.cfgStamp && s != Suffix(b) ==> s in u.cfgStamp && u.cfgStamp[s] == t.cfgStamp[s]
  {
    var p := HostPlan(sha, t, b, f.newer);
    AttemptsKeepStamps(Unlink(t, b, p), b, p, f.libtool, f.attempts);
  }

  lemma SuccessStatus(sha: string -> string, t: Tree, b: Build, f: Fate)
    requires Inv(sha, t) && WellNamed(b) && Succeeded(f)
    ensures var u := AfterBuild(sha, t, b, f); u.status.Some? && Matches(sha, u.status.value, b)
  {
    SuccessReachesTheEnd(sha, t, b, f);
  }

  /** What a build skips configure on is not its own. */
  predicate SkipsOnForeign(sha: string -> string, t: Tree, a: Build) {
    HostPlan(sha, t, a, false) == Plan(false, false) && t.status.Some? && !Matches(sha, t.status.value, a)
  }

  /** The claim is what keeps builds apart.  If it alone is lost after builds of `a` and then
      `b`, the next build of `a` skips configure on the config.status of `b` exactly when they
      share the kernel release and `b` left the stamps of `a` as they were. */
  lemma LostClaimIsUnsafe(sha: string -> string, t: Tree, a: Build, f: Fate, b: Build, g: Fate)
    requires Fresh(t) && WellNamed(a) && WellNamed(b) && Succeeded(f) && Succeeded(g) && !a.force
    ensures SkipsOnForeign(sha, AfterBuild(sha, AfterBuild(sha, t, a, f), b, g).(claim := None), a) <==>
            && !SameTree(a, b) && a.kver == b.kver
            && (Suffix(a) == Suffix(b) ==> a.server == b.server && StampHash(sha, a) == StampHash(sha, b))
  {
    var t1 := AfterBuild(sha, t, a, f);
    SuccessLeavesTreeBuilt(sha, t, a, f);
    BuildKeeps(sha, t, a, f);
    SuccessStamps(sha, t, a, f);
    SuccessStamps(sha, t1, b, g);
    SuccessLeavesTreeBuilt(sha, t1, b, g);
    SuccessStatus(sha, t1, b, g);
  }

  // ---- the tree on disk ----------------------------------------------------------

  class SourceTree {
    var configure: bool
    var status: Option<Build>
    var claim: Option<string>
    var kernelStamp: map<string, string>
    var serverStamp: map<string, bool>
    var cfgStamp: map<string, string>
    var libtool: string

    ghost function State(): Tree
      reads this
    {
      Tree(configure, status, claim, kernelStamp, serverStamp, cfgStamp, libtool)
    }

    /** Runs the container script up to the step it dies at. */
    method RunScript(b: Build, p: Plan, lt: string, a: Attempt)
      modifies this
      ensures State() == Script(old(State()), b, p, lt, a, Done(a))
    {
      var i := 0;
      while i < Done(a)
        invariant 0 <= i <= Done(a)
        invariant State() == Script(old(State()), b, p, lt, a, i)
      {
        var runs := p.reconf || lt != libtool;
        if i == 0 && p.force && a.distcleaned { status := None; }
        if i == 1 && p.reconf && a.dropsConfigure { configure := false; }
        if i == 2 { claim := Some(ClaimText(b) + "\n"); }
        if i == 3 && runs { configure := true; }
        if i == 4 && runs && a.dropsStatus { status := None; }
        if i == 5 && runs { status := Some(b); }
        if i == 6 && runs { libtool := lt; }
        i := i + 1;
      }
    }

    method RunAttempts(b: Build, p: Plan, lt: string, s: seq<Attempt>)
      modifies this
      ensures State() == Attempts(old(State()), b, p, lt, s)
    {
      var k := 0;
      while k < |s|
        invariant 0 <= k <= |s|
        invariant Attempts(State(), b, p, lt, s[k..]) == Attempts(old(State()), b, p, lt, s)
      {
        assert s[k..][1..] == s[k + 1..];
        RunScript(b, p, lt, s[k]);
        k := k + 1;
      }
    }

    /** The host check: what the script must redo; a stamp about to lie is dropped. */
    method Decide(sha: string -> string, b: Build, newer: bool) returns (p: Plan)
      modifies this`cfgStamp
      ensures p == HostPlan(sha, old(State()), b, newer)
      ensures State() == Unlink(old(State()), b, p)
    {
      var force := b.force;
      if !force && ClaimDiffers(b) { force := true; }
      var reconf := Reconfigures(b, force, newer);
      if !reconf && (Suffix(b) !in cfgStamp || cfgStamp[Suffix(b)] != StampHash(sha, b)) { reconf := true; }
      if reconf { cfgStamp := cfgStamp - {Suffix(b)}; }
      p := Plan(force, reconf);
    }

    method Stamp(sha: string -> string, b: Build, n: nat)
      modifies this
      ensures State() == WriteStamps(sha, old(State()), b, n)
    {
      if n >= 1 { kernelStamp := kernelStamp[Suffix(b) := b.kver]; }
      if n >= 2 { serverStamp := serverStamp[Suffix(b) := b.server]; }
      if n >= 3 { cfgStamp := cfgStamp[Suffix(b) := StampHash(sha, b)]; }
    }

    /** A build under the tree lock: host check, stamp unlink, container attempts, stamps. */
    method BuildInContainer(sha: string -> string, b: Build, f: Fate)
      requires WellNamed(b) && Inv(sha, State())
      modifies this
      ensures State() == AfterBuild(sha, old(State()), b, f)
      ensures Inv(sha, State()) && BuildSafe(sha, old(State()), b, f)
      ensures Succeeded(f) ==> BuiltFor(sha, State(), b, f.libtool)
    {
      ghost var before := State();
      if f.started {
        var p := Decide(sha, b, f.newer);
        RunAttempts(b, p, f.libtool, f.attempts);
        if Finished(f) { Stamp(sha, b, f.stamps); }
      }
      assert State() == AfterBuild(sha, before, b, f);
      BuildKeeps(sha, before, b, f);
      BuildIsSafe(sha, before, b, f);
      if Succeeded(f) {
        SuccessLeavesTreeBuilt(sha, before, b, f);
      }
    }

    predicate ClaimDiffers(b: Build)
      reads this
    {
      ClaimChanged(Tree(configure, status, claim, kernelStamp, serverStamp, cfgStamp, libtool), b)
    }

    predicate Reconfigures(b: Build, force: bool, newer: bool)
      reads this
    {
      NeedsReconfigure(Tree(configure, status, claim, kernelStamp, serverStamp, cfgStamp, libtool), b, force, newer)
    }
  }
}
