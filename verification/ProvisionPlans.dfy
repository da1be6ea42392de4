/**
  Provisioning plans and their allowlist: src/lib/super-admin.ts builds the commands that set a tenant up and
  take it down, and ops/mc-provisioner-daemon.js decides command by command what it is willing to run as root.
  */
module ProvisionPlans {
  import opened Wrappers
  import opened PosixPath
  import opened Text

  /** What both processes read from their environment. */
  datatype Env = Env(homeRoot: string, workspaceDirname: string, template: string, repoRoot: string, dataDir: string)

  function WithoutTrailingSlashes(s: string): string {
    if s != "" && s[|s| - 1] == '/' then WithoutTrailingSlashes(s[..|s| - 1]) else s
  }

  function StripAll(parts: seq<string>): seq<string> {
    if parts == [] then [] else [WithoutTrailingSlashes(parts[0])] + StripAll(parts[1..])
  }

  /** `joinPosix` of the builder and `pathJoinPosix` of the daemon. */
  function JoinPosix(parts: seq<string>): string {
    Join(StripAll(parts))
  }

  // ---------------------------------------------------------------------------
  // Names

  predicate LowerOrDigit(c: char) {
    'a' <= c <= 'z' || '0' <= c <= '9'
  }

  /** /^[a-z_][a-z0-9_-]{1,30}$/ */
  predicate SafeUser(user: string) {
    && 2 <= |user| <= 31
    && ('a' <= user[0] <= 'z' || user[0] == '_')
    && forall i :: 1 <= i < |user| ==> LowerOrDigit(user[i]) || user[i] == '_' || user[i] == '-'
  }

  /** /^[a-z0-9][a-z0-9-]{1,30}[a-z0-9]$/ */
  predicate ValidSlug(slug: string) {
    && 3 <= |slug| <= 32
    && LowerOrDigit(slug[0]) && LowerOrDigit(slug[|slug| - 1])
    && SlugLike(slug)
  }

  /** /^[a-z0-9-]{3,32}$/ */
  predicate SlugLike(slug: string) {
    3 <= |slug| <= 32 && forall i :: 0 <= i < |slug| ==> LowerOrDigit(slug[i]) || slug[i] == '-'
  }

  const LETTERS := "abcdefghijklmnopqrstuvwxyz"

  const DIGITS := "0123456789"

  lemma LetterOrDigitListed(c: char)
    ensures 'a' <= c <= 'z' <==> c in LETTERS
    ensures '0' <= c <= '9' <==> c in DIGITS
  {
  }

  /** The three patterns, by the characters that they list. */
  lemma NamePatterns(s: string)
    ensures SafeUser(s) <==>
      1 < |s| <= 31 && s[0] in LETTERS + "_" && forall i :: 1 <= i < |s| ==> s[i] in LETTERS + DIGITS + "_-"
    ensures SlugLike(s) <==> 3 <= |s| <= 32 && forall i :: 0 <= i < |s| ==> s[i] in LETTERS + DIGITS + "-"
    ensures ValidSlug(s) <==> SlugLike(s) && s[0] != '-' && s[|s| - 1] != '-'
  {
    forall c: char {
      LetterOrDigitListed(c);
    }
  }

  // ---------------------------------------------------------------------------
  // The builder

  datatype Tenant = Tenant(slug: string, linuxUser: string, openclawHome: string, workspaceRoot: string)

  datatype PlanStep = PlanStep(key: string, command: string, args: seq<string>)

  /**
    Tenant creation, for a slug and a user name that are already trimmed and in lower case; an empty user name
    asks for the default.
    */
  function CreateTenant(env: Env, slug: string, requestedUser: string): Result<Tenant, string> {
    var linuxUser := if requestedUser == "" then "oc-" + slug else requestedUser;
    if env.template == "" then Err("Missing OpenClaw template config")
    else if !ValidSlug(slug) then Err("Invalid slug")
    else if !SafeUser(linuxUser) then Err("Invalid linux_user format")
    else Ok(Tenant(slug, linuxUser,
                   JoinPosix([env.homeRoot, linuxUser, ".openclaw"]),
                   JoinPosix([env.homeRoot, linuxUser, env.workspaceDirname])))
  }

  function GatewayTemplate(env: Env): string {
    Join([env.repoRoot, "ops", "templates", "openclaw-gateway@.service"])
  }

  function GatewayEnvSource(env: Env, slug: string): string {
    Join([env.dataDir, "provisioner", slug]) + "/openclaw-gateway.env"
  }

  function GatewayEnvTarget(user: string): string {
    "/etc/openclaw-tenants/" + user + ".env"
  }

  function GatewayService(user: string): string {
    "openclaw-gateway@" + user + ".service"
  }

  function BootstrapPlan(env: Env, t: Tenant): seq<PlanStep> {
    [ PlanStep("create-linux-user", "/usr/sbin/useradd", ["-m", "-s", "/bin/bash", t.linuxUser]),
      PlanStep("create-openclaw-state", "/usr/bin/install",
               ["-d", "-m", "0750", "-o", t.linuxUser, "-g", t.linuxUser, t.openclawHome]),
      PlanStep("create-workspace-root", "/usr/bin/install",
               ["-d", "-m", "0750", "-o", t.linuxUser, "-g", t.linuxUser, t.workspaceRoot]),
      PlanStep("seed-openclaw-template", "/usr/bin/cp", ["-n", env.template, t.openclawHome + "/openclaw.json"]),
      PlanStep("set-owner-home", "/usr/bin/chown",
               ["-R", t.linuxUser + ":" + t.linuxUser, JoinPosix([env.homeRoot, t.linuxUser])]),
      PlanStep("ensure-openclaw-tenants-dir", "/usr/bin/install",
               ["-d", "-m", "0750", "-o", "root", "-g", "root", "/etc/openclaw-tenants"]),
      PlanStep("install-gateway-systemd-template", "/usr/bin/cp",
               ["-n", GatewayTemplate(env), "/etc/systemd/system/openclaw-gateway@.service"]),
      PlanStep("install-tenant-gateway-env", "/usr/bin/cp",
               ["-f", GatewayEnvSource(env, t.slug), GatewayEnvTarget(t.linuxUser)]),
      PlanStep("systemd-daemon-reload", "/usr/bin/systemctl", ["daemon-reload"]),
      PlanStep("enable-start-gateway", "/usr/bin/systemctl", ["enable", "--now", GatewayService(t.linuxUser)]) ]
  }

  function DecommissionPlan(t: Tenant, removeLinuxUser: bool, removeStateDirs: bool): seq<PlanStep> {
    [ PlanStep("disable-stop-gateway", "/usr/bin/systemctl", ["disable", "--now", GatewayService(t.linuxUser)]),
      PlanStep("remove-tenant-gateway-env", "/usr/bin/rm", ["-f", GatewayEnvTarget(t.linuxUser)]) ]
    + (if removeStateDirs && !removeLinuxUser then
         [ PlanStep("remove-openclaw-state-dir", "/usr/bin/rm", ["-rf", t.openclawHome]),
           PlanStep("remove-workspace-dir", "/usr/bin/rm", ["-rf", t.workspaceRoot]) ]
       else [])
    + (if removeLinuxUser then [ PlanStep("remove-linux-user", "/usr/sbin/userdel", ["-r", t.linuxUser]) ] else [])
  }

  // ---------------------------------------------------------------------------
  // The allowlist

  /** The regular expressions of the allowlist that enclose a user name: prefix, name, suffix. */
  predicate UserBetween(s: string, prefix: string, suffix: string) {
    && |prefix| + |suffix| <= |s|
    && s[..|prefix|] == prefix && s[|s| - |suffix|..] == suffix
    && SafeUser(s[|prefix|..|s| - |suffix|])
  }

  predicate SlugBetween(s: string, prefix: string, suffix: string) {
    && |prefix| + |suffix| <= |s|
    && s[..|prefix|] == prefix && s[|s| - |suffix|..] == suffix
    && SlugLike(s[|prefix|..|s| - |suffix|])
  }

  function BaseName(command: string): string {
    var parts := Split(command, '/');
    parts[|parts| - 1]
  }

  function ValidateInstall(env: Env, args: seq<string>): Option<string> {
    if |args| != 8 then Some("install argument mismatch") else
    var user, target := args[4], args[7];
    if args[0] != "-d" || args[1] != "-m" || args[3] != "-o" || args[5] != "-g" then Some("install args not allowed")
    else if args[2] !in ["0750", "0700"] then Some("install mode not allowed") else
    var isRootOwned := user == "root" && args[6] == "root";
    var isTenantOwned := SafeUser(user) && SafeUser(args[6]) && user == args[6];
    if !isRootOwned && !isTenantOwned then Some("install ownership not allowed")
    else if isRootOwned && target == "/etc/openclaw-tenants" then None
    else if target !in [JoinPosix([env.homeRoot, user, ".openclaw"]), JoinPosix([env.homeRoot, user, env.workspaceDirname])]
    then Some("install path not allowed")
    else None
  }

  function ValidateCopy(env: Env, args: seq<string>): Option<string> {
    if |args| != 3 then Some("cp argument mismatch") else
    var flag, source, target := args[0], args[1], args[2];
    if flag !in ["-n", "-f"] then Some("cp flag not allowed")
    else if env.template != "" && source == env.template then
      if flag != "-n" then Some("openclaw config copy must use -n")
      else if !UserBetween(target, JoinPosix([env.homeRoot]) + "/", "/.openclaw/openclaw.json") then Some("cp target not allowed")
      else None
    else if source == GatewayTemplate(env) then
      if flag != "-n" then Some("template copy must use -n")
      else if target != "/etc/systemd/system/openclaw-gateway@.service" then Some("gateway template target not allowed")
      else None
    else if SlugBetween(source, Join([env.dataDir, "provisioner"]) + "/", "/openclaw-gateway.env") then
      if flag != "-f" then Some("tenant env copy must use -f")
      else if !UserBetween(target, "/etc/openclaw-tenants/", ".env") then Some("tenant env target not allowed")
      else None
    else Some("cp source not allowed")
  }

  function ValidateChown(env: Env, args: seq<string>): Option<string> {
    if |args| != 3 then Some("chown argument mismatch") else
    if args[0] != "-R" then Some("chown must use -R") else
    var owners := Split(args[1], ':');
    if !SafeUser(owners[0]) || |owners| < 2 || owners[0] != owners[1] then Some("chown owner not allowed")
    else if args[2] != JoinPosix([env.homeRoot, owners[0]]) then Some("chown target not allowed")
    else None
  }

  function ValidateRemove(env: Env, args: seq<string>): Option<string> {
    if |args| != 2 then Some("rm argument mismatch") else
    var flag, target := args[0], args[1];
    if flag == "-f" then
      if UserBetween(target, "/etc/openclaw-tenants/", ".env") then None else Some("rm -f target not allowed")
    else if flag == "-rf" then
      var home := JoinPosix([env.homeRoot]) + "/";
      if UserBetween(target, home, "/.openclaw") || UserBetween(target, home, "/" + env.workspaceDirname) then None
      else Some("rm -rf target not allowed")
    else Some("rm flag not allowed")
  }

  function ValidateSystemctl(args: seq<string>): Option<string> {
    if args == ["daemon-reload"] then None
    else if |args| == 3 && args[0] in ["enable", "disable"] && args[1] == "--now" then
      if UserBetween(args[2], "openclaw-gateway@", ".service") then None else Some("systemctl service name not allowed")
    else Some("systemctl args not allowed")
  }

  /** None stands for the null that lets a command through, Some for the reason why it is refused. */
  function ValidateCommand(env: Env, command: string, args: seq<string>): Option<string> {
    if command == "" then Some("Invalid command payload") else
    var cmd := BaseName(command);
    if cmd == "useradd" then
      if |args| != 4 then Some("useradd argument mismatch")
      else if args[0] != "-m" || args[1] != "-s" || args[2] != "/bin/bash" then Some("useradd args not allowed")
      else if !SafeUser(args[3]) then Some("Invalid username")
      else None
    else if cmd == "install" then ValidateInstall(env, args)
    else if cmd == "cp" then ValidateCopy(env, args)
    else if cmd == "chown" then ValidateChown(env, args)
    else if cmd == "rm" then ValidateRemove(env, args)
    else if cmd == "userdel" then
      if |args| != 2 then Some("userdel argument mismatch")
      else if args[0] != "-r" then Some("userdel must use -r")
      else if !SafeUser(args[1]) then Some("Invalid username")
      else None
    else if cmd == "true" then if args != [] then Some("true takes no args") else None
    else if cmd == "systemctl" then ValidateSystemctl(args)
    else Some("Command not allowlisted: " + command)
  }

  predicate Accepted(env: Env, step: PlanStep) {
    ValidateCommand(env, step.command, step.args) == None
  }

  // ---------------------------------------------------------------------------
  // Paths under the home root

  /** The home root names a directory below "/" or below the working directory. */
  predicate RootBelow(root: string) {
    JoinPosix([root]) != "." && JoinPosix([root]) != "/"
  }

  lemma {:induction false} NoTrailingSlashLeft(s: string)
    ensures var c := WithoutTrailingSlashes(s); c == "" || c[|c| - 1] != '/'
  {
    if s != "" && s[|s| - 1] == '/' {
      NoTrailingSlashLeft(s[..|s| - 1]);
    }
  }

  lemma StripPlain(root: string, p: string, q: string)
    requires Plain(p) && Plain(q)
    ensures var c := WithoutTrailingSlashes(root);
      StripAll([root]) == [c] && StripAll([root, p]) == [c] + [p] && StripAll([root, p, q]) == [c] + [p] + [q]
  {
    assert StripAll([q]) == [q];
    assert [p, q][1..] == [q] && StripAll([p, q]) == [p, q];
    assert [root, p][1..] == [p] && StripAll([p]) == [p];
    assert [root, p, q][1..] == [p, q];
  }

  /** Where the home directory of a user and the directories in it are, for every spelling of the root. */
  lemma HomePaths(root: string, user: string, name: string)
    requires Plain(user) && Plain(name)
    ensures JoinPosix([root, user, name]) == JoinPosix([root, user]) + "/" + name
    ensures JoinPosix([root, user]) ==
      if RootBelow(root) then JoinPosix([root]) + "/" + user
      else if JoinPosix([root]) == "/" then "/" + user else user
  {
    var c := WithoutTrailingSlashes(root);
    StripPlain(root, user, name);
    NoTrailingSlashLeft(root);
    RawOne(c);
    RawBelow([c], user);
    JoinAppend([c] + [user], name);
    RawAppend([c], user);
    if c == "" {
      PlainNormalizes(user);
    } else {
      NormalizedRoot(c);
      NormalizeAppend(c, user);
    }
  }

  // ---------------------------------------------------------------------------
  // The shapes that the allowlist recognizes

  lemma SafeUserIsPlain(user: string)
    requires SafeUser(user)
    ensures Plain(user) && ':' !in user
  {
  }

  lemma SlugIsPlain(slug: string)
    requires ValidSlug(slug)
    ensures Plain(slug)
  {
  }

  lemma BaseNameOf(directory: string, name: string)
    requires '/' !in name
    ensures BaseName(directory + "/" + name) == name
  {
    SplitConcat(directory, name, '/');
    SplitWithout(name, '/');
  }

  lemma Commands()
    ensures BaseName("/usr/sbin/useradd") == "useradd"
    ensures BaseName("/usr/sbin/userdel") == "userdel"
    ensures BaseName("/usr/bin/install") == "install"
    ensures BaseName("/usr/bin/cp") == "cp"
    ensures BaseName("/usr/bin/chown") == "chown"
    ensures BaseName("/usr/bin/rm") == "rm"
    ensures BaseName("/usr/bin/systemctl") == "systemctl"
  {
    hide BaseName;
    var sbin, bin := "/usr/sbin", "/usr/bin";
    BaseNameOf(sbin, "useradd");
    BaseNameOf(sbin, "userdel");
    BaseNameOf(bin, "install");
    BaseNameOf(bin, "cp");
    BaseNameOf(bin, "chown");
    BaseNameOf(bin, "rm");
    BaseNameOf(bin, "systemctl");
    assert "/usr/sbin/useradd" == sbin + "/" + "useradd" && "/usr/sbin/userdel" == sbin + "/" + "userdel";
    assert "/usr/bin/install" == bin + "/" + "install" && "/usr/bin/cp" == bin + "/" + "cp";
    assert "/usr/bin/chown" == bin + "/" + "chown" && "/usr/bin/rm" == bin + "/" + "rm";
    assert "/usr/bin/systemctl" == bin + "/" + "systemctl";
  }

  /** Which check decides about a step. */
  lemma Dispatch(env: Env, step: PlanStep)
    ensures step.command == "/usr/bin/install" ==> (Accepted(env, step) <==> ValidateInstall(env, step.args) == None)
    ensures step.command == "/usr/bin/cp" ==> (Accepted(env, step) <==> ValidateCopy(env, step.args) == None)
    ensures step.command == "/usr/bin/chown" ==> (Accepted(env, step) <==> ValidateChown(env, step.args) == None)
    ensures step.command == "/usr/bin/rm" ==> (Accepted(env, step) <==> ValidateRemove(env, step.args) == None)
    ensures step.command == "/usr/bin/systemctl" ==> (Accepted(env, step) <==> ValidateSystemctl(step.args) == None)
  {
    hide BaseName, ValidateInstall, ValidateCopy, ValidateChown, ValidateRemove, ValidateSystemctl;
    Commands();
  }

  lemma UserIsBetween(prefix: string, user: string, suffix: string)
    ensures UserBetween(prefix + user + suffix, prefix, suffix) <==> SafeUser(user)
  {
    var s := prefix + user + suffix;
    assert s[..|prefix|] == prefix && s[|s| - |suffix|..] == suffix && s[|prefix|..|s| - |suffix|] == user;
  }

  lemma SlugIsBetween(prefix: string, slug: string, suffix: string)
    ensures SlugBetween(prefix + slug + suffix, prefix, suffix) <==> SlugLike(slug)
  {
    var s := prefix + slug + suffix;
    assert s[..|prefix|] == prefix && s[|s| - |suffix|..] == suffix && s[|prefix|..|s| - |suffix|] == slug;
  }

  lemma PrefixMismatch(s: string, prefix: string, suffix: string, k: nat)
    requires k < |prefix| && k < |s| && s[k] != prefix[k]
    ensures !UserBetween(s, prefix, suffix)
  {
    assert |prefix| <= |s| ==> s[..|prefix|][k] == s[k];
  }

  lemma SuffixMismatch(s: string, prefix: string, suffix: string)
    requires s != "" && suffix != "" && s[|s| - 1] != suffix[|suffix| - 1]
    ensures !UserBetween(s, prefix, suffix)
  {
    assert |suffix| <= |s| ==> s[|s| - |suffix|..][|suffix| - 1] == s[|s| - 1];
  }

  /** Below an ordinary root, a path in a user's home matches the allowlist's pattern for it. */
  lemma HomeTargetMatches(root: string, user: string, name: string, rest: string)
    requires SafeUser(user) && Plain(name) && RootBelow(root)
    ensures UserBetween(JoinPosix([root, user, name]) + rest, JoinPosix([root]) + "/", "/" + name + rest)
  {
    hide JoinPosix;
    var base := JoinPosix([root]);
    SafeUserIsPlain(user);
    HomePaths(root, user, name);
    UserIsBetween(base + "/", user, "/" + name + rest);
    assert JoinPosix([root, user, name]) + rest == (base + "/") + user + ("/" + name + rest);
  }

  /** With "/" or "." as the root, it matches no pattern that begins with the root and a slash. */
  lemma HomeTargetFails(root: string, user: string, name: string, rest: string, suffix: string)
    requires SafeUser(user) && Plain(name) && !RootBelow(root)
    ensures !UserBetween(JoinPosix([root, user, name]) + rest, JoinPosix([root]) + "/", suffix)
  {
    hide JoinPosix, UserBetween;
    var base, home := JoinPosix([root]), JoinPosix([root, user]);
    var k := if base == "/" then 1 else 0;
    SafeUserIsPlain(user);
    HomePaths(root, user, name);
    assert home == if base == "/" then "/" + user else user;
    assert (home + "/" + name + rest)[k] == user[0];
    PrefixMismatch(home + "/" + name + rest, base + "/", suffix, k);
  }

  // ---------------------------------------------------------------------------
  // The allowlist, by what it lets through

  /** The arguments let through for `useradd`, `userdel`, `true` and `systemctl`. */
  predicate AccountForm(name: string, args: seq<string>, user: string) {
    || (name == "useradd" && args == ["-m", "-s", "/bin/bash", user])
    || (name == "userdel" && args == ["-r", user])
    || (name == "true" && args == [])
    || (name == "systemctl" && args == ["daemon-reload"])
    || (name == "systemctl" && args == ["enable", "--now", "openclaw-gateway@" + user + ".service"])
    || (name == "systemctl" && args == ["disable", "--now", "openclaw-gateway@" + user + ".service"])
  }

  function InstallArgs(mode: string, owner: string, target: string): seq<string> {
    ["-d", "-m", mode, "-o", owner, "-g", owner, target]
  }

  predicate InstallForm(env: Env, args: seq<string>, user: string, mode: string) {
    && (mode == "0750" || mode == "0700")
    && (|| args == InstallArgs(mode, "root", "/etc/openclaw-tenants")
        || args == InstallArgs(mode, user, JoinPosix([env.homeRoot, user, ".openclaw"]))
        || args == InstallArgs(mode, user, JoinPosix([env.homeRoot, user, env.workspaceDirname])))
  }

  predicate ConfigCopy(env: Env, args: seq<string>, user: string) {
    env.template != "" && args == ["-n", env.template, JoinPosix([env.homeRoot]) + "/" + user + "/.openclaw/openclaw.json"]
  }

  predicate UnitCopy(env: Env, args: seq<string>) {
    var unit := Join([env.repoRoot, "ops", "templates", "openclaw-gateway@.service"]);
    args == ["-n", unit, "/etc/systemd/system/openclaw-gateway@.service"] && (env.template == "" || unit != env.template)
  }

  predicate TenantCopy(env: Env, args: seq<string>, user: string, slug: string) {
    var source := Join([env.dataDir, "provisioner"]) + "/" + slug + "/openclaw-gateway.env";
    args == ["-f", source, "/etc/openclaw-tenants/" + user + ".env"] && (env.template == "" || source != env.template)
  }

  /** A file that is the configuration template is only ever copied as that. */
  predicate CopyForm(env: Env, args: seq<string>, user: string, slug: string) {
    ConfigCopy(env, args, user) || UnitCopy(env, args) || TenantCopy(env, args, user, slug)
  }

  /** What follows a second colon in the owner is not looked at. */
  predicate OwnerForm(env: Env, args: seq<string>, user: string, extra: string) {
    args == ["-R", user + ":" + user + extra, JoinPosix([env.homeRoot, user])] && (extra == "" || extra[0] == ':')
  }

  predicate RemoveForm(env: Env, args: seq<string>, user: string) {
    || args == ["-f", "/etc/openclaw-tenants/" + user + ".env"]
    || args == ["-rf", JoinPosix([env.homeRoot]) + "/" + user + "/.openclaw"]
    || args == ["-rf", JoinPosix([env.homeRoot]) + "/" + user + "/" + env.workspaceDirname]
  }

  /** The eight commands with their arguments, for some user, some slug and, where they are free, some mode and owner suffix. */
  ghost predicate Allowed(env: Env, name: string, args: seq<string>) {
    exists user, slug, mode, extra :: SafeUser(user) && SlugLike(slug) && AllowedFor(env, name, args, user, slug, mode, extra)
  }

  predicate AllowedFor(env: Env, name: string, args: seq<string>, user: string, slug: string, mode: string, extra: string) {
    || AccountForm(name, args, user)
    || (name == "install" && InstallForm(env, args, user, mode))
    || (name == "cp" && CopyForm(env, args, user, slug))
    || (name == "chown" && OwnerForm(env, args, user, extra))
    || (name == "rm" && RemoveForm(env, args, user))
  }

  /** `name` is what follows the last slash of the command. */
  ghost predicate IsBaseName(command: string, name: string) {
    '/' !in name && (command == name || exists directory :: command == directory + "/" + name)
  }

  lemma {:induction false} LastPart(s: string)
    ensures IsBaseName(s, BaseName(s))
    decreases |s|
  {
    if '/' in s {
      var rest := SplitHead(s, '/');
      var directory := Split(s, '/')[0];
      LastPart(rest);
      var name := BaseName(rest);
      assert name == BaseName(s);
      if rest == name {
        assert s == directory + "/" + name;
      } else {
        var inner :| rest == inner + "/" + name;
        assert s == (directory + "/" + inner) + "/" + name;
      }
    } else {
      SplitWithout(s, '/');
    }
  }

  lemma BaseNameIsUnique(command: string, name: string)
    ensures IsBaseName(command, name) <==> name == BaseName(command)
  {
    LastPart(command);
    if IsBaseName(command, name) {
      if command == name {
        SplitWithout(name, '/');
      } else {
        var directory :| command == directory + "/" + name;
        BaseNameOf(directory, name);
      }
    }
  }

  lemma UserBetweenExactly(s: string, prefix: string, suffix: string)
    ensures UserBetween(s, prefix, suffix) <==> exists user :: SafeUser(user) && s == prefix + user + suffix
  {
    hide SafeUser;
    if UserBetween(s, prefix, suffix) {
      assert s == prefix + s[|prefix|..|s| - |suffix|] + suffix;
    }
    if user :| SafeUser(user) && s == prefix + user + suffix {
      UserIsBetween(prefix, user, suffix);
    }
  }

  lemma SlugBetweenExactly(s: string, prefix: string, suffix: string)
    ensures SlugBetween(s, prefix, suffix) <==> exists slug :: SlugLike(slug) && s == prefix + slug + suffix
  {
    hide SlugLike;
    if SlugBetween(s, prefix, suffix) {
      assert s == prefix + s[|prefix|..|s| - |suffix|] + suffix;
    }
    if slug :| SlugLike(slug) && s == prefix + slug + suffix {
      SlugIsBetween(prefix, slug, suffix);
    }
  }

  lemma InstallOf(env: Env, mode: string, owner: string, target: string)
    ensures ValidateInstall(env, InstallArgs(mode, owner, target)) == None <==>
      && mode in ["0750", "0700"]
      && ((owner == "root" && target == "/etc/openclaw-tenants")
          || (SafeUser(owner) && target in [JoinPosix([env.homeRoot, owner, ".openclaw"]), JoinPosix([env.homeRoot, owner, env.workspaceDirname])]))
  {
    assert SafeUser("root");
    hide SafeUser, JoinPosix;
  }

  lemma InstallExactly(env: Env, args: seq<string>)
    ensures ValidateInstall(env, args) == None <==> exists user, mode :: SafeUser(user) && InstallForm(env, args, user, mode)
  {
    assert SafeUser("root");
    hide SafeUser, JoinPosix;
    if ValidateInstall(env, args) == None {
      assert args == InstallArgs(args[2], args[4], args[7]);
      hide ValidateInstall, InstallArgs;
      InstallOf(env, args[2], args[4], args[7]);
      assert InstallForm(env, args, args[4], args[2]);
    }
    if user, mode :| SafeUser(user) && InstallForm(env, args, user, mode) {
      hide ValidateInstall, InstallArgs;
      InstallOf(env, mode, "root", "/etc/openclaw-tenants");
      InstallOf(env, mode, user, JoinPosix([env.homeRoot, user, ".openclaw"]));
      InstallOf(env, mode, user, JoinPosix([env.homeRoot, user, env.workspaceDirname]));
    }
  }

  lemma UnitEnds(env: Env)
    ensures var unit := GatewayTemplate(env); unit != "" && unit[|unit| - 1] == 'e'
  {
    hide Raw, Normalize, Components;
    var directory, unit := [env.repoRoot, "ops", "templates"], "openclaw-gateway@.service";
    RawBelow([env.repoRoot, "ops"], "templates");
    assert [env.repoRoot, "ops"] + ["templates"] == directory;
    assert Plain(unit);
    JoinAppend(directory, unit);
    assert directory + [unit] == [env.repoRoot, "ops", "templates", unit];
  }

  lemma CopyExactly(env: Env, args: seq<string>)
    ensures ValidateCopy(env, args) == None <==> exists user, slug :: SafeUser(user) && SlugLike(slug) && CopyForm(env, args, user, slug)
  {
    hide SafeUser, SlugLike, CopyForm, ValidateCopy;
    if ValidateCopy(env, args) == None {
      CopyHasForm(env, args);
    }
    if user, slug :| SafeUser(user) && SlugLike(slug) && CopyForm(env, args, user, slug) {
      CopyPasses(env, args, user, slug);
    }
  }

  lemma CopyPasses(env: Env, args: seq<string>, user: string, slug: string)
    requires SafeUser(user) && SlugLike(slug) && CopyForm(env, args, user, slug)
    ensures ValidateCopy(env, args) == None
  {
    UnitEnds(env);
    hide SafeUser, SlugLike, JoinPosix, Join, UserBetween, SlugBetween;
    var data := Join([env.dataDir, "provisioner"]) + "/";
    var source := data + slug + "/openclaw-gateway.env";
    assert source[|source| - 1] == 'v';
    UserIsBetween(JoinPosix([env.homeRoot]) + "/", user, "/.openclaw/openclaw.json");
    UserIsBetween("/etc/openclaw-tenants/", user, ".env");
    SlugIsBetween(data, slug, "/openclaw-gateway.env");
  }

  lemma ConfigCopyFound(env: Env, args: seq<string>)
    requires |args| == 3 && args[0] == "-n" && env.template != "" && args[1] == env.template
    requires UserBetween(args[2], JoinPosix([env.homeRoot]) + "/", "/.openclaw/openclaw.json")
    ensures exists user :: SafeUser(user) && ConfigCopy(env, args, user)
  {
    hide SafeUser, JoinPosix, UserBetween;
    var home := JoinPosix([env.homeRoot]) + "/";
    UserBetweenExactly(args[2], home, "/.openclaw/openclaw.json");
    var user :| SafeUser(user) && args[2] == home + user + "/.openclaw/openclaw.json";
    assert args == [args[0], args[1], args[2]];
    assert ConfigCopy(env, args, user);
  }

  lemma TenantCopyFound(env: Env, args: seq<string>)
    requires |args| == 3 && args[0] == "-f" && (env.template == "" || args[1] != env.template)
    requires UserBetween(args[2], "/etc/openclaw-tenants/", ".env")
    requires SlugBetween(args[1], Join([env.dataDir, "provisioner"]) + "/", "/openclaw-gateway.env")
    ensures exists user, slug :: SafeUser(user) && SlugLike(slug) && TenantCopy(env, args, user, slug)
  {
    hide SafeUser, SlugLike, Join, UserBetween, SlugBetween;
    var data := Join([env.dataDir, "provisioner"]) + "/";
    UserBetweenExactly(args[2], "/etc/openclaw-tenants/", ".env");
    SlugBetweenExactly(args[1], data, "/openclaw-gateway.env");
    var user :| SafeUser(user) && args[2] == "/etc/openclaw-tenants/" + user + ".env";
    var slug :| SlugLike(slug) && args[1] == data + slug + "/openclaw-gateway.env";
    assert args == [args[0], args[1], args[2]];
    assert TenantCopy(env, args, user, slug);
  }

  lemma UnitCopyFound(env: Env, args: seq<string>)
    requires |args| == 3 && args[0] == "-n" && args[1] == GatewayTemplate(env) && args[2] == "/etc/systemd/system/openclaw-gateway@.service"
    requires env.template == "" || args[1] != env.template
    ensures UnitCopy(env, args)
  {
    hide Join;
    assert args == [args[0], args[1], args[2]];
  }

  /** The three ways to be let through. */
  lemma CopyBranches(env: Env, args: seq<string>)
    requires ValidateCopy(env, args) == None
    ensures |args| == 3
    ensures if env.template != "" && args[1] == env.template then
              args[0] == "-n" && UserBetween(args[2], JoinPosix([env.homeRoot]) + "/", "/.openclaw/openclaw.json")
            else if args[1] == GatewayTemplate(env) then
              args[0] == "-n" && args[2] == "/etc/systemd/system/openclaw-gateway@.service"
            else
              args[0] == "-f" && UserBetween(args[2], "/etc/openclaw-tenants/", ".env")
              && SlugBetween(args[1], Join([env.dataDir, "provisioner"]) + "/", "/openclaw-gateway.env")
  {
    hide GatewayTemplate, JoinPosix, Join, UserBetween, SlugBetween;
  }

  lemma CopyHasForm(env: Env, args: seq<string>)
    requires ValidateCopy(env, args) == None
    ensures exists user, slug :: SafeUser(user) && SlugLike(slug) && CopyForm(env, args, user, slug)
  {
    assert SafeUser("root") && SlugLike("root");
    hide SafeUser, SlugLike, JoinPosix, Join, GatewayTemplate, UserBetween, SlugBetween, ConfigCopy, UnitCopy, TenantCopy, ValidateCopy;
    CopyBranches(env, args);
    if env.template != "" && args[1] == env.template {
      ConfigCopyFound(env, args);
      var user :| SafeUser(user) && ConfigCopy(env, args, user);
      assert CopyForm(env, args, user, "root");
    } else if args[1] == GatewayTemplate(env) {
      UnitCopyFound(env, args);
      assert CopyForm(env, args, "root", "root");
    } else {
      TenantCopyFound(env, args);
      var user, slug :| SafeUser(user) && SlugLike(slug) && TenantCopy(env, args, user, slug);
      assert CopyForm(env, args, user, slug);
    }
  }

  lemma OwnerExactly(env: Env, args: seq<string>)
    ensures ValidateChown(env, args) == None <==> exists user, extra :: SafeUser(user) && OwnerForm(env, args, user, extra)
  {
    hide JoinPosix;
    if ValidateChown(env, args) == None {
      var owners := Split(args[1], ':');
      var user := owners[0];
      if ':' !in args[1] {
        SplitWithout(args[1], ':');
      }
      var rest := SplitHead(args[1], ':');
      if ':' in rest {
        var more := SplitHead(rest, ':');
        assert args[1] == user + ":" + user + (":" + more);
        assert OwnerForm(env, args, user, ":" + more);
      } else {
        SplitWithout(rest, ':');
        assert args[1] == user + ":" + user + "";
        assert OwnerForm(env, args, user, "");
      }
    }
    if user, extra :| SafeUser(user) && OwnerForm(env, args, user, extra) {
      OwnerPasses(env, args, user, extra);
    }
  }

  lemma OwnerPasses(env: Env, args: seq<string>, user: string, extra: string)
    requires SafeUser(user) && OwnerForm(env, args, user, extra)
    ensures ValidateChown(env, args) == None
  {
    SafeUserIsPlain(user);
    SplitConcat(user, user + extra, ':');
    assert args[1] == user + [':'] + (user + extra);
    SplitWithout(user, ':');
    if extra != "" {
      assert user + extra == user + [':'] + extra[1..];
      SplitConcat(user, extra[1..], ':');
    } else {
      assert user + extra == user;
    }
  }

  lemma RemoveExactly(env: Env, args: seq<string>)
    ensures ValidateRemove(env, args) == None <==> exists user :: SafeUser(user) && RemoveForm(env, args, user)
  {
    hide SafeUser, JoinPosix, UserBetween;
    if |args| == 2 {
      var home := JoinPosix([env.homeRoot]) + "/";
      UserBetweenExactly(args[1], "/etc/openclaw-tenants/", ".env");
      UserBetweenExactly(args[1], home, "/.openclaw");
      UserBetweenExactly(args[1], home, "/" + env.workspaceDirname);
      assert args == [args[0], args[1]];
      assert forall user :: home + user + ("/" + env.workspaceDirname) == JoinPosix([env.homeRoot]) + "/" + user + "/" + env.workspaceDirname;
    }
  }

  lemma UnitsExactly(args: seq<string>)
    ensures ValidateSystemctl(args) == None <==> exists user :: SafeUser(user) && AccountForm("systemctl", args, user)
  {
    assert SafeUser("root");
    hide SafeUser, UserBetween;
    if |args| == 3 {
      UserBetweenExactly(args[2], "openclaw-gateway@", ".service");
      assert args == [args[0], args[1], args[2]];
    }
  }

  lemma AccountsExactly(env: Env, command: string, args: seq<string>)
    requires command != "" && BaseName(command) in ["useradd", "userdel", "true", "systemctl"]
    ensures ValidateCommand(env, command, args) == None <==> exists user :: SafeUser(user) && AccountForm(BaseName(command), args, user)
  {
    assert SafeUser("root");
    hide SafeUser, UserBetween, BaseName;
    if BaseName(command) == "systemctl" {
      UnitsExactly(args);
    } else if BaseName(command) == "useradd" {
      if |args| == 4 {
        assert args == [args[0], args[1], args[2], args[3]];
      }
    } else if |args| == 2 {
      assert args == [args[0], args[1]];
    }
  }

  /** Which of the forms decides about a command. */
  lemma AllowedByForm(env: Env, name: string, args: seq<string>)
    ensures Allowed(env, name, args) <==>
      || (exists user :: SafeUser(user) && AccountForm(name, args, user))
      || (name == "install" && exists user, mode :: SafeUser(user) && InstallForm(env, args, user, mode))
      || (name == "cp" && exists user, slug :: SafeUser(user) && SlugLike(slug) && CopyForm(env, args, user, slug))
      || (name == "chown" && exists user, extra :: SafeUser(user) && OwnerForm(env, args, user, extra))
      || (name == "rm" && exists user :: SafeUser(user) && RemoveForm(env, args, user))
  {
    assert SlugLike("root");
    hide SafeUser, SlugLike, AccountForm, InstallForm, CopyForm, OwnerForm, RemoveForm;
    if user :| SafeUser(user) && AccountForm(name, args, user) {
      assert AllowedFor(env, name, args, user, "root", "", "");
    }
    if name == "install" {
      if user, mode :| SafeUser(user) && InstallForm(env, args, user, mode) {
        assert AllowedFor(env, name, args, user, "root", mode, "");
      }
    } else if name == "cp" {
      if user, slug :| SafeUser(user) && SlugLike(slug) && CopyForm(env, args, user, slug) {
        assert AllowedFor(env, name, args, user, slug, "", "");
      }
    } else if name == "chown" {
      if user, extra :| SafeUser(user) && OwnerForm(env, args, user, extra) {
        assert AllowedFor(env, name, args, user, "root", "", extra);
      }
    } else if name == "rm" {
      if user :| SafeUser(user) && RemoveForm(env, args, user) {
        assert AllowedFor(env, name, args, user, "root", "", "");
      }
    }
  }

  lemma NamedAllowlist(env: Env, command: string, args: seq<string>)
    requires command != ""
    ensures ValidateCommand(env, command, args) == None <==> Allowed(env, BaseName(command), args)
  {
    hide BaseName, SafeUser, SlugLike, InstallForm, CopyForm, OwnerForm, RemoveForm, Allowed;
    var name := BaseName(command);
    AllowedByForm(env, name, args);
    if name in ["useradd", "userdel", "true", "systemctl"] {
      AccountsExactly(env, command, args);
    } else {
      hide ValidateInstall, ValidateCopy, ValidateChown, ValidateRemove;
      InstallExactly(env, args);
      CopyExactly(env, args);
      OwnerExactly(env, args);
      RemoveExactly(env, args);
    }
  }

  /**
    For every environment, command and argument list: the daemon lets the command through if and only if its last
    path component is one of the eight commands and its arguments are one of the forms, with a safe user name and a
    slug-like directory name.
    */
  lemma AllowlistIsExact(env: Env, command: string, args: seq<string>)
    ensures ValidateCommand(env, command, args) == None <==> exists name :: IsBaseName(command, name) && Allowed(env, name, args)
  {
    var name := BaseName(command);
    forall other
      ensures IsBaseName(command, other) <==> other == name
    {
      BaseNameIsUnique(command, other);
    }
    hide Allowed, ValidateCommand, IsBaseName;
    if command != "" {
      NamedAllowlist(env, command, args);
    } else {
      NothingAllowed(env, args);
    }
  }

  lemma NothingAllowed(env: Env, args: seq<string>)
    ensures ValidateCommand(env, "", args) != None && BaseName("") == "" && !Allowed(env, "", args)
  {
  }

  // ---------------------------------------------------------------------------
  // The two sides agree

  lemma ArtifactSource(env: Env, slug: string)
    requires ValidSlug(slug)
    ensures SlugBetween(GatewayEnvSource(env, slug), Join([env.dataDir, "provisioner"]) + "/", "/openclaw-gateway.env")
  {
    hide Raw, Normalize, Components;
    var directory := [env.dataDir, "provisioner"];
    SlugIsPlain(slug);
    RawBelow([env.dataDir], "provisioner");
    assert [env.dataDir] + ["provisioner"] == directory;
    JoinAppend(directory, slug);
    assert directory + [slug] == [env.dataDir, "provisioner", slug];
    SlugIsBetween(Join(directory) + "/", slug, "/openclaw-gateway.env");
  }

  /** The two files that are copied for every tenant differ: one is a unit file, the other an environment file. */
  lemma TemplateEnds(env: Env, slug: string)
    ensures GatewayTemplate(env) != GatewayEnvSource(env, slug)
  {
    hide Join;
    UnitEnds(env);
    var template, source := GatewayTemplate(env), GatewayEnvSource(env, slug);
    assert template[|template| - 1] == 'e' && source[|source| - 1] == 'v';
  }

  lemma OwnerAccepted(env: Env, user: string)
    requires SafeUser(user)
    ensures ValidateChown(env, ["-R", user + ":" + user, JoinPosix([env.homeRoot, user])]) == None
  {
    SafeUserIsPlain(user);
    SplitConcat(user, user, ':');
    SplitWithout(user, ':');
    assert user + [':'] + user == user + ":" + user;
  }

  lemma SeedCopyAccepted(env: Env, user: string)
    requires env.template != "" && SafeUser(user)
    ensures ValidateCopy(env, ["-n", env.template, JoinPosix([env.homeRoot, user, ".openclaw"]) + "/openclaw.json"]) == None
            <==> RootBelow(env.homeRoot)
  {
    hide Join, JoinPosix, SafeUser, UserBetween, SlugBetween;
    assert "/" + ".openclaw" + "/openclaw.json" == "/.openclaw/openclaw.json";
    if RootBelow(env.homeRoot) {
      HomeTargetMatches(env.homeRoot, user, ".openclaw", "/openclaw.json");
    } else {
      HomeTargetFails(env.homeRoot, user, ".openclaw", "/openclaw.json", "/.openclaw/openclaw.json");
    }
  }

  lemma UnitCopyAccepted(env: Env)
    requires env.template != ""
    ensures ValidateCopy(env, ["-n", GatewayTemplate(env), "/etc/systemd/system/openclaw-gateway@.service"]) == None
            <==> env.template != GatewayTemplate(env)
  {
    hide Join, JoinPosix, UserBetween, SlugBetween;
    SuffixMismatch("/etc/systemd/system/openclaw-gateway@.service", JoinPosix([env.homeRoot]) + "/", "/.openclaw/openclaw.json");
  }

  lemma EnvironmentCopyAccepted(env: Env, slug: string, user: string)
    requires env.template != "" && ValidSlug(slug) && SafeUser(user)
    ensures ValidateCopy(env, ["-f", GatewayEnvSource(env, slug), GatewayEnvTarget(user)]) == None
            <==> env.template != GatewayEnvSource(env, slug)
  {
    hide Join, JoinPosix, SafeUser, UserBetween, SlugBetween;
    ArtifactSource(env, slug);
    TemplateEnds(env, slug);
    UserIsBetween("/etc/openclaw-tenants/", user, ".env");
  }

  lemma InstallsAccepted(env: Env, user: string)
    requires SafeUser(user)
    ensures forall target <- [JoinPosix([env.homeRoot, user, ".openclaw"]), JoinPosix([env.homeRoot, user, env.workspaceDirname])] ::
      ValidateInstall(env, ["-d", "-m", "0750", "-o", user, "-g", user, target]) == None
    ensures ValidateInstall(env, ["-d", "-m", "0750", "-o", "root", "-g", "root", "/etc/openclaw-tenants"]) == None
  {
  }

  lemma RemovalsAccepted(env: Env, t: Tenant)
    requires SafeUser(t.linuxUser) && Plain(env.workspaceDirname)
    requires t.openclawHome == JoinPosix([env.homeRoot, t.linuxUser, ".openclaw"])
    requires t.workspaceRoot == JoinPosix([env.homeRoot, t.linuxUser, env.workspaceDirname])
    ensures ValidateRemove(env, ["-f", GatewayEnvTarget(t.linuxUser)]) == None
    ensures ValidateRemove(env, ["-rf", t.openclawHome]) == None <==> RootBelow(env.homeRoot)
    ensures ValidateRemove(env, ["-rf", t.workspaceRoot]) == None <==> RootBelow(env.homeRoot)
  {
    hide Join, JoinPosix, SafeUser, UserBetween;
    var root, user, ws := env.homeRoot, t.linuxUser, env.workspaceDirname;
    UserIsBetween("/etc/openclaw-tenants/", user, ".env");
    assert "/" + ".openclaw" + "" == "/.openclaw" && "/" + ws + "" == "/" + ws;
    assert t.openclawHome + "" == t.openclawHome && t.workspaceRoot + "" == t.workspaceRoot;
    if RootBelow(root) {
      HomeTargetMatches(root, user, ".openclaw", "");
      HomeTargetMatches(root, user, ws, "");
    } else {
      HomeTargetFails(root, user, ".openclaw", "", "/.openclaw");
      HomeTargetFails(root, user, ".openclaw", "", "/" + ws);
      HomeTargetFails(root, user, ws, "", "/.openclaw");
      HomeTargetFails(root, user, ws, "", "/" + ws);
    }
  }

  /** What the acceptance of the step at position `i` of a bootstrap plan depends on. */
  predicate BootstrapCondition(env: Env, t: Tenant, i: int) {
    if i == 3 then RootBelow(env.homeRoot)
    else if i == 6 then env.template != GatewayTemplate(env)
    else if i == 7 then env.template != GatewayEnvSource(env, t.slug)
    else true
  }

  lemma BootstrapStepAgreement(env: Env, slug: string, user: string, t: Tenant, i: nat)
    requires CreateTenant(env, slug, user) == Ok(t) && i < |BootstrapPlan(env, t)|
    ensures Accepted(env, BootstrapPlan(env, t)[i]) <==> BootstrapCondition(env, t, i)
  {
    hide Join, JoinPosix, SafeUser, BaseName, ValidateInstall, ValidateCopy, ValidateChown, UserBetween;
    if i == 0 {
      Commands();
    } else if i == 1 || i == 2 || i == 5 {
      InstallsAccepted(env, t.linuxUser);
    } else if i == 3 {
      SeedCopyAccepted(env, t.linuxUser);
    } else if i == 4 {
      OwnerAccepted(env, t.linuxUser);
    } else if i == 6 {
      UnitCopyAccepted(env);
    } else if i == 7 {
      EnvironmentCopyAccepted(env, t.slug, t.linuxUser);
    } else {
      UserIsBetween("openclaw-gateway@", t.linuxUser, ".service");
    }
    Dispatch(env, BootstrapPlan(env, t)[i]);
  }

  /**
    Every step of the bootstrap plan of every tenant is let through, exactly when the home root is not "/" or "."
    and the configuration template is neither of the two other files that the plan copies.
    */
  lemma BootstrapAgreement(env: Env, slug: string, user: string, t: Tenant)
    requires CreateTenant(env, slug, user) == Ok(t)
    ensures (forall step <- BootstrapPlan(env, t) :: Accepted(env, step)) <==>
      && RootBelow(env.homeRoot)
      && env.template != GatewayTemplate(env)
      && env.template != GatewayEnvSource(env, t.slug)
  {
    hide Accepted;
    var plan := BootstrapPlan(env, t);
    forall i | 0 <= i < |plan|
      ensures Accepted(env, plan[i]) <==> BootstrapCondition(env, t, i)
    {
      BootstrapStepAgreement(env, slug, user, t, i);
    }
    assert plan[3] in plan && plan[6] in plan && plan[7] in plan;
  }

  /**
    Every step of a decommission plan is let through, for all options, exactly when the plan removes no directory
    or the home root is not "/" or ".".
    */
  lemma DecommissionAgreement(env: Env, slug: string, user: string, t: Tenant, removeLinuxUser: bool, removeStateDirs: bool)
    requires CreateTenant(env, slug, user) == Ok(t) && Plain(env.workspaceDirname)
    ensures (forall step <- DecommissionPlan(t, removeLinuxUser, removeStateDirs) :: Accepted(env, step)) <==>
      (removeStateDirs && !removeLinuxUser ==> RootBelow(env.homeRoot))
  {
    hide Join, JoinPosix, SafeUser, BaseName, UserBetween, ValidateRemove;
    var plan := DecommissionPlan(t, removeLinuxUser, removeStateDirs);
    Commands();
    UserIsBetween("openclaw-gateway@", t.linuxUser, ".service");
    RemovalsAccepted(env, t);
    if removeStateDirs && !removeLinuxUser {
      assert plan[2] in plan;
    }
  }

  /** The default user name fits the pattern exactly when the slug leaves room for its prefix. */
  lemma DefaultUserFits(env: Env, slug: string)
    requires env.template != "" && ValidSlug(slug)
    ensures CreateTenant(env, slug, "").Ok? <==> |slug| <= 28
  {
    var user := "oc-" + slug;
    assert forall i :: 3 <= i < |user| ==> user[i] == slug[i - 3];
  }
}
