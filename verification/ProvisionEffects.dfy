/**
  What the provisioning plans of src/lib/super-admin.ts do to a machine, with the usual meaning of the commands that
  they consist of.
  */
module ProvisionEffects {
  import opened Wrappers
  import opened PosixPath
  import opened ProvisionPlans

  datatype Directory = Directory(owner: string, mode: string)

  /** Accounts, enabled units, files (by the file they were copied from) and directories. */
  datatype Machine = Machine(users: set<string>, units: set<string>, files: map<string, string>, dirs: map<string, Directory>)

  predicate Within(path: string, top: string) {
    path == top || top + "/" <= path
  }

  function Chown(dirs: map<string, Directory>, owner: string, top: string): map<string, Directory> {
    map d | d in dirs :: if Within(d, top) then dirs[d].(owner := owner) else dirs[d]
  }

  function Remaining<T>(paths: map<string, T>, top: string): map<string, T> {
    map d | d in paths && !Within(d, top) :: paths[d]
  }

  function OwnerOf(owner: string): string {
    Text.Split(owner, ':')[0]
  }

  /** A command with other arguments than those of the allowlist is left without meaning. */
  function Effect(m: Machine, step: PlanStep): Machine {
    var args := step.args;
    match step.command
    case "/usr/sbin/useradd" => if |args| == 4 then m.(users := m.users + {args[3]}) else m
    case "/usr/sbin/userdel" => if |args| == 2 then m.(users := m.users - {args[1]}) else m
    case "/usr/bin/install" => if |args| == 8 then m.(dirs := m.dirs[args[7] := Directory(args[4], args[2])]) else m
    case "/usr/bin/cp" =>
      if |args| != 3 || (args[0] == "-n" && args[2] in m.files) then m else m.(files := m.files[args[2] := args[1]])
    case "/usr/bin/chown" => if |args| == 3 then m.(dirs := Chown(m.dirs, OwnerOf(args[1]), args[2])) else m
    case "/usr/bin/rm" =>
      if |args| != 2 then m
      else if args[0] == "-rf" then m.(files := Remaining(m.files, args[1]), dirs := Remaining(m.dirs, args[1]))
      else m.(files := m.files - {args[1]})
    case "/usr/bin/systemctl" =>
      if |args| != 3 then m
      else if args[0] == "enable" then m.(units := m.units + {args[2]}) else m.(units := m.units - {args[2]})
    case _ => m
  }

  function Run(m: Machine, plan: seq<PlanStep>): Machine {
    if plan == [] then m else Effect(Run(m, plan[..|plan| - 1]), plan[|plan| - 1])
  }

  // ---------------------------------------------------------------------------
  // Bootstrap

  function HomeOf(env: Env, user: string): string {
    JoinPosix([env.homeRoot, user])
  }

  function UnitOf(user: string): string {
    "openclaw-gateway@" + user + ".service"
  }

  function EnvFileOf(user: string): string {
    "/etc/openclaw-tenants/" + user + ".env"
  }

  function StateDir(env: Env, user: string): string {
    HomeOf(env, user) + "/.openclaw"
  }

  function WorkDir(env: Env, user: string): string {
    HomeOf(env, user) + "/" + env.workspaceDirname
  }

  function ConfigFile(env: Env, user: string): string {
    HomeOf(env, user) + "/.openclaw/openclaw.json"
  }

  const UNIT_FILE := "/etc/systemd/system/openclaw-gateway@.service"

  const TENANTS := "/etc/openclaw-tenants"

  lemma RunSnoc(m: Machine, plan: seq<PlanStep>, step: PlanStep)
    ensures Run(m, plan + [step]) == Effect(Run(m, plan), step)
  {
    assert (plan + [step])[..|plan|] == plan;
  }

  lemma OwnerOfPair(user: string)
    requires SafeUser(user)
    ensures OwnerOf(user + ":" + user) == user
  {
    SafeUserIsPlain(user);
    Text.SplitConcat(user, user, ':');
    Text.SplitWithout(user, ':');
    assert user + [':'] + user == user + ":" + user;
  }

  function Copied(files: map<string, string>, source: string, target: string): map<string, string> {
    if target in files then files else files[target := source]
  }

  lemma AccountEffects(m: Machine, user: string)
    ensures Effect(m, PlanStep("create-linux-user", "/usr/sbin/useradd", ["-m", "-s", "/bin/bash", user])) == m.(users := m.users + {user})
    ensures Effect(m, PlanStep("remove-linux-user", "/usr/sbin/userdel", ["-r", user])) == m.(users := m.users - {user})
  {
  }

  lemma InstallEffect(m: Machine, key: string, owner: string, target: string)
    ensures Effect(m, PlanStep(key, "/usr/bin/install", ["-d", "-m", "0750", "-o", owner, "-g", owner, target])) ==
      m.(dirs := m.dirs[target := Directory(owner, "0750")])
  {
  }

  lemma CopyEffects(m: Machine, key: string, source: string, target: string)
    ensures Effect(m, PlanStep(key, "/usr/bin/cp", ["-n", source, target])) == m.(files := Copied(m.files, source, target))
    ensures Effect(m, PlanStep(key, "/usr/bin/cp", ["-f", source, target])) == m.(files := m.files[target := source])
  {
  }

  lemma OwnerEffect(m: Machine, key: string, user: string, top: string)
    requires SafeUser(user)
    ensures Effect(m, PlanStep(key, "/usr/bin/chown", ["-R", user + ":" + user, top])) == m.(dirs := Chown(m.dirs, user, top))
  {
    OwnerOfPair(user);
  }

  lemma RemoveEffects(m: Machine, key: string, target: string)
    ensures Effect(m, PlanStep(key, "/usr/bin/rm", ["-f", target])) == m.(files := m.files - {target})
    ensures Effect(m, PlanStep(key, "/usr/bin/rm", ["-rf", target])) == m.(files := Remaining(m.files, target), dirs := Remaining(m.dirs, target))
  {
  }

  lemma UnitEffects(m: Machine, key: string, unit: string)
    ensures Effect(m, PlanStep(key, "/usr/bin/systemctl", ["daemon-reload"])) == m
    ensures Effect(m, PlanStep(key, "/usr/bin/systemctl", ["enable", "--now", unit])) == m.(units := m.units + {unit})
    ensures Effect(m, PlanStep(key, "/usr/bin/systemctl", ["disable", "--now", unit])) == m.(units := m.units - {unit})
  {
  }

  /** The plan step by step. */
  lemma BootstrapRuns(env: Env, t: Tenant, m: Machine)
    requires SafeUser(t.linuxUser)
    ensures
      var u := t.linuxUser;
      var made := m.dirs[t.openclawHome := Directory(u, "0750")][t.workspaceRoot := Directory(u, "0750")];
      var seeded := Copied(m.files, env.template, t.openclawHome + "/openclaw.json");
      var installed := Copied(seeded, GatewayTemplate(env), UNIT_FILE);
      Run(m, BootstrapPlan(env, t)) ==
        Machine(m.users + {u}, m.units + {UnitOf(u)},
                installed[EnvFileOf(u) := GatewayEnvSource(env, t.slug)],
                Chown(made, u, HomeOf(env, u))[TENANTS := Directory("root", "0750")])
  {
    hide SafeUser, JoinPosix, Join, Chown, GatewayTemplate, GatewayEnvSource, Effect, Run, Copied;
    var u, plan := t.linuxUser, BootstrapPlan(env, t);
    var m1 := m.(users := m.users + {u});
    var m2 := m1.(dirs := m1.dirs[t.openclawHome := Directory(u, "0750")]);
    var m3 := m2.(dirs := m2.dirs[t.workspaceRoot := Directory(u, "0750")]);
    var m4 := m3.(files := Copied(m3.files, env.template, t.openclawHome + "/openclaw.json"));
    var m5 := m4.(dirs := Chown(m4.dirs, u, HomeOf(env, u)));
    RunPrefix(m, plan, 0);
    AccountEffects(m, u);
    RunPrefix(m, plan, 1);
    InstallEffect(m1, plan[1].key, u, t.openclawHome);
    RunPrefix(m, plan, 2);
    InstallEffect(m2, plan[2].key, u, t.workspaceRoot);
    RunPrefix(m, plan, 3);
    CopyEffects(m3, plan[3].key, env.template, t.openclawHome + "/openclaw.json");
    RunPrefix(m, plan, 4);
    OwnerEffect(m4, plan[4].key, u, HomeOf(env, u));
    BootstrapEnds(env, t, m, m5);
  }

  lemma BootstrapEnds(env: Env, t: Tenant, m: Machine, m5: Machine)
    requires Run(m, BootstrapPlan(env, t)[..5]) == m5
    ensures var u := t.linuxUser;
      Run(m, BootstrapPlan(env, t)) ==
        Machine(m5.users, m5.units + {UnitOf(u)},
                Copied(m5.files, GatewayTemplate(env), UNIT_FILE)[EnvFileOf(u) := GatewayEnvSource(env, t.slug)],
                m5.dirs[TENANTS := Directory("root", "0750")])
  {
    hide JoinPosix, Join, GatewayTemplate, GatewayEnvSource, Effect, Run, Copied;
    var u, plan := t.linuxUser, BootstrapPlan(env, t);
    var m6 := m5.(dirs := m5.dirs[TENANTS := Directory("root", "0750")]);
    var m7 := m6.(files := Copied(m6.files, GatewayTemplate(env), UNIT_FILE));
    var m8 := m7.(files := m7.files[EnvFileOf(u) := GatewayEnvSource(env, t.slug)]);
    RunPrefix(m, plan, 5);
    InstallEffect(m5, plan[5].key, "root", TENANTS);
    RunPrefix(m, plan, 6);
    CopyEffects(m6, plan[6].key, GatewayTemplate(env), UNIT_FILE);
    RunPrefix(m, plan, 7);
    CopyEffects(m7, plan[7].key, GatewayEnvSource(env, t.slug), EnvFileOf(u));
    RunPrefix(m, plan, 8);
    UnitEffects(m8, plan[8].key, UnitOf(u));
    RunPrefix(m, plan, 9);
    UnitEffects(m8, plan[9].key, UnitOf(u));
    assert plan[..10] == plan;
  }

  lemma RunPrefix(m: Machine, plan: seq<PlanStep>, k: nat)
    requires k < |plan|
    ensures Run(m, plan[..k + 1]) == Effect(Run(m, plan[..k]), plan[k])
    ensures k == 0 ==> Run(m, plan[..0]) == m
  {
    assert plan[..k + 1] == plan[..k] + [plan[k]];
    RunSnoc(m, plan[..k], plan[k]);
  }

  /** A directory in a home is not the directory of the environment files. */
  lemma HomeIsNotTenants(home: string, name: string)
    requires Plain(name) && |home| > 1 && '/' in home[1..]
    ensures home + "/" + name != TENANTS
  {
    var path := home + "/" + name;
    var k :| 1 <= k < |home| && home[k] == '/';
    assert path[k] == '/' && path[|home|] == '/';
  }

  /** The three files that a bootstrap copies go to three places. */
  lemma TargetsDiffer(env: Env, user: string, other: string)
    ensures ConfigFile(env, user) != UNIT_FILE && ConfigFile(env, user) != EnvFileOf(other) && UNIT_FILE != EnvFileOf(other)
  {
    var config := ConfigFile(env, user);
    assert config[|config| - 1] == 'n' && UNIT_FILE[|UNIT_FILE| - 1] == 'e' && EnvFileOf(other)[|EnvFileOf(other)| - 1] == 'v';
  }

  lemma CreatedTenant(env: Env, slug: string, user: string, t: Tenant)
    requires CreateTenant(env, slug, user) == Ok(t)
    ensures SafeUser(t.linuxUser)
    ensures t.openclawHome == JoinPosix([env.homeRoot, t.linuxUser, ".openclaw"])
    ensures t.workspaceRoot == JoinPosix([env.homeRoot, t.linuxUser, env.workspaceDirname])
  {
    hide JoinPosix, SafeUser, ValidSlug;
  }

  /** Where a tenant's directories and configuration are. */
  lemma TenantPaths(env: Env, slug: string, user: string, t: Tenant)
    requires CreateTenant(env, slug, user) == Ok(t) && RootBelow(env.homeRoot) && Plain(env.workspaceDirname)
    ensures SafeUser(t.linuxUser)
    ensures t.openclawHome == StateDir(env, t.linuxUser) && t.workspaceRoot == WorkDir(env, t.linuxUser)
    ensures t.openclawHome + "/openclaw.json" == ConfigFile(env, t.linuxUser)
    ensures StateDir(env, t.linuxUser) != TENANTS && WorkDir(env, t.linuxUser) != TENANTS
  {
    hide JoinPosix, RootBelow, CreateTenant, SafeUser, HomeOf;
    var home := HomeOf(env, t.linuxUser);
    CreatedTenant(env, slug, user, t);
    HomeShape(env, t.linuxUser);
    PlainState();
    hide Plain;
    HomeIsNotTenants(home, ".openclaw");
    HomeIsNotTenants(home, env.workspaceDirname);
    StatePaths(home);
  }

  lemma PlainState()
    ensures Plain(".openclaw")
  {
  }

  lemma StatePaths(home: string)
    ensures home + "/" + ".openclaw" == home + "/.openclaw" && home + "/.openclaw" + "/openclaw.json" == home + "/.openclaw/openclaw.json"
  {
  }

  /** What lies in the tenant's directories lies in the home. */
  lemma HomeHolds(env: Env, user: string)
    ensures Within(StateDir(env, user), HomeOf(env, user)) && Within(WorkDir(env, user), HomeOf(env, user))
    ensures Within(ConfigFile(env, user), HomeOf(env, user))
    ensures forall path :: Within(path, StateDir(env, user)) || Within(path, WorkDir(env, user)) ==> Within(path, HomeOf(env, user))
  {
    hide HomeOf;
    var home := HomeOf(env, user);
    InsideHome(home, ".openclaw");
    InsideHome(home, env.workspaceDirname);
    assert home + "/" + ".openclaw" == StateDir(env, user);
    assert home + "/" <= ConfigFile(env, user);
  }

  lemma HomeShape(env: Env, user: string)
    requires SafeUser(user) && RootBelow(env.homeRoot)
    ensures HomeOf(env, user) == JoinPosix([env.homeRoot]) + "/" + user && JoinPosix([env.homeRoot]) != ""
    ensures |HomeOf(env, user)| > 1 && '/' in HomeOf(env, user)[1..]
    ensures forall name :: Plain(name) ==> JoinPosix([env.homeRoot, user, name]) == HomeOf(env, user) + "/" + name
  {
    hide JoinPosix;
    SafeUserIsPlain(user);
    forall name | Plain(name)
      ensures JoinPosix([env.homeRoot, user, name]) == HomeOf(env, user) + "/" + name
    {
      HomePaths(env.homeRoot, user, name);
    }
    HomePaths(env.homeRoot, user, user);
    RootNotEmpty(env.homeRoot);
    var base, home := JoinPosix([env.homeRoot]), HomeOf(env, user);
    assert home[1..][|base| - 1] == '/';
  }

  lemma RootNotEmpty(root: string)
    ensures JoinPosix([root]) != ""
  {
    hide Raw, Components;
    var path := Raw(StripAll([root]));
    if path != "" && Components(path) != [] {
      ResolvedComponents([], Text.Split(path, '/'), Absolute(path));
      PartsNotEmpty(path);
    }
  }

  lemma PartsNotEmpty(path: string)
    requires path != ""
    ensures Normalize(path) != ""
  {
    ResolvedComponents([], Text.Split(path, '/'), Absolute(path));
    var parts := Components(path);
    if parts != [] {
      assert parts[0] in parts;
      assert Component(parts[0]) && parts[0] <= Text.Unsplit(parts, "/");
    }
  }

  /**
    After the bootstrap plan of a tenant: the account and the tenant's gateway unit are there; the user owns the two
    directories of mode 0750 in the home and everything else below it; a configuration and a unit file that were there
    before are kept, the tenant's environment file is always renewed. Nothing else changes.
    */
  lemma BootstrapBuilds(env: Env, slug: string, user: string, t: Tenant, m: Machine)
    requires CreateTenant(env, slug, user) == Ok(t) && RootBelow(env.homeRoot) && Plain(env.workspaceDirname)
    ensures
      var m', u := Run(m, BootstrapPlan(env, t)), t.linuxUser;
      var config, made := ConfigFile(env, u), {StateDir(env, u), WorkDir(env, u)};
      && m'.users == m.users + {u} && m'.units == m.units + {UnitOf(u)}
      && m'.files.Keys == m.files.Keys + {config, UNIT_FILE, EnvFileOf(u)}
      && m'.files[config] == (if config in m.files then m.files[config] else env.template)
      && m'.files[UNIT_FILE] == (if UNIT_FILE in m.files then m.files[UNIT_FILE] else GatewayTemplate(env))
      && m'.files[EnvFileOf(u)] == GatewayEnvSource(env, t.slug)
      && (forall f <- m.files :: f !in {config, UNIT_FILE, EnvFileOf(u)} ==> m'.files[f] == m.files[f])
      && m'.dirs.Keys == m.dirs.Keys + made + {TENANTS}
      && (forall d <- made :: m'.dirs[d] == Directory(u, "0750"))
      && m'.dirs[TENANTS] == Directory("root", "0750")
      && (forall d <- m.dirs :: d !in made && d != TENANTS ==>
            m'.dirs[d] == if Within(d, HomeOf(env, u)) then Directory(u, m.dirs[d].mode) else m.dirs[d])
  {
    hide Run, Copied, Chown, Within, StateDir, WorkDir, ConfigFile, HomeOf, UnitOf, EnvFileOf;
    hide BootstrapPlan, CreateTenant, RootBelow, SafeUser, GatewayTemplate, GatewayEnvSource;
    var u := t.linuxUser;
    TenantPaths(env, slug, user, t);
    BootstrapRuns(env, t, m);
    TargetsDiffer(env, u, u);
    FilesAfter(m.files, env.template, ConfigFile(env, u), GatewayTemplate(env), EnvFileOf(u), GatewayEnvSource(env, t.slug));
    DirsAfter(m.dirs, u, HomeOf(env, u), StateDir(env, u), WorkDir(env, u));
  }

  lemma FilesAfter(files: map<string, string>, template: string, config: string, unit: string, envFile: string, source: string)
    requires config != UNIT_FILE && config != envFile && UNIT_FILE != envFile
    ensures var files' := Copied(Copied(files, template, config), unit, UNIT_FILE)[envFile := source];
      && files'.Keys == files.Keys + {config, UNIT_FILE, envFile}
      && files'[config] == (if config in files then files[config] else template)
      && files'[UNIT_FILE] == (if UNIT_FILE in files then files[UNIT_FILE] else unit)
      && files'[envFile] == source
      && (forall f <- files :: f !in {config, UNIT_FILE, envFile} ==> files'[f] == files[f])
  {
  }

  lemma DirsAfter(dirs: map<string, Directory>, u: string, home: string, a: string, b: string)
    requires a != TENANTS && b != TENANTS
    ensures var made := dirs[a := Directory(u, "0750")][b := Directory(u, "0750")];
      var dirs' := Chown(made, u, home)[TENANTS := Directory("root", "0750")];
      && dirs'.Keys == dirs.Keys + {a, b} + {TENANTS}
      && (forall d <- {a, b} :: dirs'[d] == Directory(u, "0750"))
      && dirs'[TENANTS] == Directory("root", "0750")
      && (forall d <- dirs :: d !in {a, b} && d != TENANTS ==>
            dirs'[d] == if Within(d, home) then Directory(u, dirs[d].mode) else dirs[d])
  {
  }

  // ---------------------------------------------------------------------------
  // Decommission

  lemma DecommissionRuns(t: Tenant, removeLinuxUser: bool, removeStateDirs: bool, m: Machine)
    ensures
      var u, m' := t.linuxUser, Run(m, DecommissionPlan(t, removeLinuxUser, removeStateDirs));
      var files := m.files - {EnvFileOf(u)};
      if removeLinuxUser then m' == Machine(m.users - {u}, m.units - {UnitOf(u)}, files, m.dirs)
      else if removeStateDirs then
        m' == Machine(m.users, m.units - {UnitOf(u)},
                      Remaining(Remaining(files, t.openclawHome), t.workspaceRoot),
                      Remaining(Remaining(m.dirs, t.openclawHome), t.workspaceRoot))
      else m' == Machine(m.users, m.units - {UnitOf(u)}, files, m.dirs)
  {
    hide Effect, Run, Remaining;
    var u, plan := t.linuxUser, DecommissionPlan(t, removeLinuxUser, removeStateDirs);
    var m1 := m.(units := m.units - {UnitOf(u)});
    var m2 := m1.(files := m1.files - {EnvFileOf(u)});
    RunPrefix(m, plan, 0);
    UnitEffects(m, plan[0].key, UnitOf(u));
    RunPrefix(m, plan, 1);
    RemoveEffects(m1, plan[1].key, EnvFileOf(u));
    if removeLinuxUser {
      RunPrefix(m, plan, 2);
      AccountEffects(m2, u);
      assert plan[..3] == plan;
    } else if removeStateDirs {
      var m3 := m2.(files := Remaining(m2.files, t.openclawHome), dirs := Remaining(m2.dirs, t.openclawHome));
      RunPrefix(m, plan, 2);
      RemoveEffects(m2, plan[2].key, t.openclawHome);
      RunPrefix(m, plan, 3);
      RemoveEffects(m3, plan[3].key, t.workspaceRoot);
      assert plan[..4] == plan;
    } else {
      assert plan[..2] == plan;
    }
  }

  /**
    Decommissioning right after bootstrapping withdraws what the bootstrap gave the tenant: the unit and the
    environment file always, the account if asked for, and otherwise, if asked for, the two directories with all that is
    in them. Files elsewhere are those from before, but for the shared unit file.
    */
  lemma DecommissionWithdraws(env: Env, slug: string, user: string, t: Tenant, removeLinuxUser: bool, removeStateDirs: bool, m: Machine)
    requires CreateTenant(env, slug, user) == Ok(t) && RootBelow(env.homeRoot) && Plain(env.workspaceDirname)
    ensures
      var m', u := Run(Run(m, BootstrapPlan(env, t)), DecommissionPlan(t, removeLinuxUser, removeStateDirs)), t.linuxUser;
      var home := HomeOf(env, u);
      && m'.units == m.units - {UnitOf(u)} && EnvFileOf(u) !in m'.files
      && m'.users == (if removeLinuxUser then m.users - {u} else m.users + {u})
      && (removeStateDirs && !removeLinuxUser ==>
            forall path :: Within(path, StateDir(env, u)) || Within(path, WorkDir(env, u)) ==> path !in m'.files && path !in m'.dirs)
      && (forall f <- m'.files :: f in m.files || f == UNIT_FILE || f == ConfigFile(env, u))
      && (forall f <- m.files :: f != EnvFileOf(u) && !Within(f, home) ==> f in m'.files && m'.files[f] == m.files[f])
      && (forall d <- m.dirs :: d != TENANTS && !Within(d, home) ==> d in m'.dirs && m'.dirs[d] == m.dirs[d])
  {
    hide Run, Within, StateDir, WorkDir, ConfigFile, HomeOf, UnitOf, EnvFileOf;
    hide BootstrapPlan, DecommissionPlan, CreateTenant, RootBelow, SafeUser, GatewayTemplate, GatewayEnvSource;
    var u := t.linuxUser;
    TenantPaths(env, slug, user, t);
    BootstrapBuilds(env, slug, user, t, m);
    DecommissionRuns(t, removeLinuxUser, removeStateDirs, Run(m, BootstrapPlan(env, t)));
    HomeHolds(env, u);
  }

  /** What lies in a directory of a home lies in the home. */
  lemma InsideHome(home: string, name: string)
    ensures forall path :: Within(path, home + "/" + name) ==> Within(path, home)
  {
    forall path | Within(path, home + "/" + name)
      ensures Within(path, home)
    {
      assert home + "/" <= home + "/" + name;
    }
  }

  // ---------------------------------------------------------------------------
  // Tenants beside each other

  lemma HeadOf(path: string, base: string, user: string)
    requires '/' !in user && Within(path, base + "/" + user)
    ensures |path| > |base| && Text.Split(path[|base| + 1..], '/')[0] == user
  {
    Text.SplitWithout(user, '/');
    var tail := path[|base| + 1..];
    if path == base + "/" + user {
      assert tail == user;
    } else {
      var rest := path[|base| + 1 + |user| + 1..];
      assert path == (base + "/" + user + "/") + rest;
      assert tail == user + ['/'] + rest;
      Text.SplitConcat(user, rest, '/');
    }
  }

  lemma HomesApart(base: string, u: string, v: string, path: string)
    requires u != v && '/' !in u && '/' !in v && Within(path, base + "/" + u)
    ensures !Within(path, base + "/" + v)
  {
    HeadOf(path, base, u);
    if Within(path, base + "/" + v) {
      HeadOf(path, base, v);
    }
  }

  /** The account, unit and environment file of a user, and what is in the home, apart from the paths in `shared`, are as before. */
  ghost predicate Untouched(m: Machine, m': Machine, home: string, user: string, shared: set<string>) {
    && (user in m'.users <==> user in m.users)
    && (UnitOf(user) in m'.units <==> UnitOf(user) in m.units)
    && SameAt(m.files, m'.files, EnvFileOf(user))
    && (forall path :: Within(path, home) && path !in shared ==> SameAt(m.files, m'.files, path) && SameAt(m.dirs, m'.dirs, path))
  }

  predicate SameAt<T(==)>(before: map<string, T>, after: map<string, T>, path: string) {
    (path in after <==> path in before) && (path in before ==> after[path] == before[path])
  }

  lemma OwnNames(u: string, v: string)
    requires u != v
    ensures UnitOf(u) != UnitOf(v) && EnvFileOf(u) != EnvFileOf(v)
  {
    var a, b := |"openclaw-gateway@"|, |"/etc/openclaw-tenants/"|;
    assert UnitOf(u)[a..|UnitOf(u)| - 8] == u && UnitOf(v)[a..|UnitOf(v)| - 8] == v;
    assert EnvFileOf(u)[b..|EnvFileOf(u)| - 4] == u && EnvFileOf(v)[b..|EnvFileOf(v)| - 4] == v;
  }

  /** A path of three components lies below a directory only along its own components. */
  lemma BelowAlong(a: string, b: string, c: string, base: string, u: string)
    requires a != "" && '/' !in a[1..] && '/' !in b && '/' !in c && '/' !in u && base != ""
    requires Within(a + "/" + b + "/" + c, base + "/" + u)
    ensures (base == a && u == b) || u == c
  {
    var path := a + "/" + b + "/" + c;
    HeadOf(path, base, u);
    hide Within;
    assert path[|base|] == '/';
    Text.SplitWithout(b, '/');
    Text.SplitWithout(c, '/');
    Text.SplitConcat(b, c, '/');
    hide Text.Split;
    SlashesBetween(a, b, c, |base|);
    if |base| == |a| {
      assert path[|base| + 1..] == b + ['/'] + c && path[..|a|] == a;
    } else {
      assert path[|base| + 1..] == c;
    }
  }

  lemma SlashesBetween(a: string, b: string, c: string, k: nat)
    requires a != "" && '/' !in a[1..] && '/' !in b && '/' !in c
    ensures var path := a + "/" + b + "/" + c; 0 < k < |path| && path[k] == '/' ==> k == |a| || k == |a| + 1 + |b|
  {
    var path := a + "/" + b + "/" + c;
    assert 0 < k < |a| ==> path[k] == a[1..][k - 1];
    assert |a| < k <= |a| + |b| ==> path[k] == b[k - |a| - 1];
    assert |a| + 1 + |b| < k < |path| ==> path[k] == c[k - |a| - |b| - 2];
  }

  /** The environment files lie in a home only if that is their own directory. */
  lemma EnvFilesOutside(env: Env, u: string, other: string)
    requires SafeUser(u) && SafeUser(other) && RootBelow(env.homeRoot)
    requires JoinPosix([env.homeRoot]) != "/etc" || u != "openclaw-tenants"
    ensures !Within(EnvFileOf(other), HomeOf(env, u))
  {
    hide JoinPosix, RootBelow, Within;
    SafeUserIsPlain(u);
    SafeUserIsPlain(other);
    NoDot(u);
    HomeShape(env, u);
    hide SafeUser, HomeOf;
    var name := other + ".env";
    assert name[|other|] == '.';
    assert "/etc" + "/" + "openclaw-tenants" + "/" + name == EnvFileOf(other);
    if Within(EnvFileOf(other), HomeOf(env, u)) {
      BelowAlong("/etc", "openclaw-tenants", name, JoinPosix([env.homeRoot]), u);
    }
  }

  lemma NoDot(user: string)
    requires SafeUser(user)
    ensures '.' !in user
  {
  }

  lemma HomesAreApart(env: Env, u: string, v: string)
    requires SafeUser(u) && SafeUser(v) && u != v && RootBelow(env.homeRoot)
    ensures forall path :: Within(path, HomeOf(env, u)) ==> !Within(path, HomeOf(env, v))
  {
    hide JoinPosix, Within;
    SafeUserIsPlain(u);
    SafeUserIsPlain(v);
    HomeShape(env, u);
    HomeShape(env, v);
    hide SafeUser, RootBelow, HomeOf;
    forall path | Within(path, HomeOf(env, u))
      ensures !Within(path, HomeOf(env, v))
    {
      HomesApart(JoinPosix([env.homeRoot]), u, v, path);
    }
  }

  lemma BootstrapSparesOthers(env: Env, slug: string, user: string, t: Tenant, other: string, m: Machine)
    requires CreateTenant(env, slug, user) == Ok(t) && RootBelow(env.homeRoot) && Plain(env.workspaceDirname)
    requires SafeUser(other) && other != t.linuxUser
    ensures Untouched(m, Run(m, BootstrapPlan(env, t)), HomeOf(env, other), other, {UNIT_FILE, EnvFileOf(t.linuxUser), TENANTS})
  {
    hide Run, Within, StateDir, WorkDir, ConfigFile, HomeOf, UnitOf, EnvFileOf;
    hide BootstrapPlan, CreateTenant, RootBelow, SafeUser, GatewayTemplate, GatewayEnvSource;
    var u := t.linuxUser;
    TenantPaths(env, slug, user, t);
    BootstrapBuilds(env, slug, user, t, m);
    HomeHolds(env, u);
    OwnNames(u, other);
    TargetsDiffer(env, u, other);
    HomesAreApart(env, other, u);
  }

  lemma DecommissionSparesOthers(env: Env, slug: string, user: string, t: Tenant, other: string, removeLinuxUser: bool, removeStateDirs: bool, m: Machine)
    requires CreateTenant(env, slug, user) == Ok(t) && RootBelow(env.homeRoot) && Plain(env.workspaceDirname)
    requires SafeUser(other) && other != t.linuxUser
    requires JoinPosix([env.homeRoot]) != "/etc" || t.linuxUser != "openclaw-tenants"
    ensures Untouched(m, Run(m, DecommissionPlan(t, removeLinuxUser, removeStateDirs)), HomeOf(env, other), other, {EnvFileOf(t.linuxUser)})
  {
    hide Run, Within, StateDir, WorkDir, ConfigFile, HomeOf, UnitOf, EnvFileOf;
    hide DecommissionPlan, CreateTenant, RootBelow, SafeUser;
    var u := t.linuxUser;
    TenantPaths(env, slug, user, t);
    DecommissionRuns(t, removeLinuxUser, removeStateDirs, m);
    EnvFilesOutside(env, u, other);
    HomeHolds(env, u);
    OwnNames(u, other);
    HomesAreApart(env, other, u);
  }

  /**
    Neither plan of a tenant touches another one: its account, unit, environment file, and every file and directory in
    its home stay as they are, unless the tenant's own home is the directory of the environment files.
    */
  lemma TenantsAreIsolated(env: Env, slug: string, user: string, t: Tenant, other: string, removeLinuxUser: bool, removeStateDirs: bool, m: Machine)
    requires CreateTenant(env, slug, user) == Ok(t) && RootBelow(env.homeRoot) && Plain(env.workspaceDirname)
    requires SafeUser(other) && other != t.linuxUser
    requires JoinPosix([env.homeRoot]) != "/etc" || t.linuxUser != "openclaw-tenants"
    ensures
      var shared := {UNIT_FILE, EnvFileOf(t.linuxUser), TENANTS};
      && Untouched(m, Run(m, BootstrapPlan(env, t)), HomeOf(env, other), other, shared)
      && Untouched(m, Run(m, DecommissionPlan(t, removeLinuxUser, removeStateDirs)), HomeOf(env, other), other, shared)
  {
    hide RootBelow, SafeUser, HomeOf, Run, Within, SameAt;
    BootstrapSparesOthers(env, slug, user, t, other, m);
    DecommissionSparesOthers(env, slug, user, t, other, removeLinuxUser, removeStateDirs, m);
  }
}
