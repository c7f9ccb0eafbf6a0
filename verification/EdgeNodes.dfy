/** The edge-node allocator: which registered modules carry an active deployment, and the capacity
    check that is meant to leave room for every free one. */
module EdgeNodes {
  import opened Prelude
  import opened Users
  import opened Ordering

  datatype Kind = RaspberryPi | Pn532 | M5Tab | Esp32S3 | M5StampS3 | AtomS3 | ExternalClient
  datatype Health = Absent | Detected | Degraded | Okay

  datatype Module = Module(id: string, slug: string, kind: Kind, status: Health)

  datatype Stage = Requested | Provisioning | Running | Failing | Stopped

  datatype Deployment = Deployment(id: int, moduleId: string, stage: Stage)

  /** The module registry in slug order, the deployments in id order, and the users. */
  datatype State = State(modules: seq<Module>, deployments: seq<Deployment>, nextId: int, users: map<int, User>)

  datatype Error =
    | InvalidModuleId | InvalidSsid | InvalidPassword
    | ModuleNotFound | NotEdgeModule | ModuleNotDetected
    | AdminNotFound | AdminOnly | LimitReached | AlreadyDeployed | DeploymentNotFound | SlugRequired

  datatype Env = Env(strip: string -> string, lower: string -> string)

  datatype Reply<T> = Reply(state: State, result: Result<T, Error>)

  const MAX_EDGE_NODES := 4

  predicate EdgeKind(k: Kind) { k.M5StampS3? || k.Esp32S3? }

  predicate Usable(h: Health) { !h.Absent? }

  predicate UsableEdge(m: Module) { EdgeKind(m.kind) && Usable(m.status) }

  predicate Serving(d: Deployment) { !d.stage.Stopped? }

  function IsActive(): Deployment -> bool { (d: Deployment) => Serving(d) }

  function IsUsableEdge(): Module -> bool { (m: Module) => UsableEdge(m) }

  function ActiveCount(s: State): nat { |Filter(IsActive(), s.deployments)| }

  function EdgeLimit(modules: seq<Module>): nat {
    var count := |Filter(IsUsableEdge(), modules)|;
    if count < MAX_EDGE_NODES then count else MAX_EDGE_NODES
  }

  predicate Named(env: Env, m: Module, requested: string) {
    env.lower(m.id) == env.lower(requested) || env.lower(m.slug) == env.lower(requested)
  }

  /** The first module with that id or slug, if it can be deployed to. */
  function Resolve(env: Env, modules: seq<Module>, requested: string): Result<Module, Error> {
    if modules == [] then Err(ModuleNotFound)
    else if !Named(env, modules[0], requested) then Resolve(env, modules[1..], requested)
    else if !EdgeKind(modules[0].kind) then Err(NotEdgeModule)
    else if !Usable(modules[0].status) then Err(ModuleNotDetected)
    else Ok(modules[0])
  }

  predicate Deployed(s: State, moduleId: string) {
    exists i :: 0 <= i < |s.deployments| && s.deployments[i].moduleId == moduleId && Serving(s.deployments[i])
  }

  function Deploy(env: Env, s: State, admin: int, moduleId: string, ssid: string, password: string): Reply<int> {
    var module' := Resolve(env, s.modules, env.strip(moduleId));
    if env.strip(moduleId) == "" then Reply(s, Err(InvalidModuleId))
    else if env.strip(ssid) == "" then Reply(s, Err(InvalidSsid))
    else if password == "" then Reply(s, Err(InvalidPassword))
    else if module'.Err? then Reply(s, Err(module'.error))
    else if admin !in s.users then Reply(s, Err(AdminNotFound))
    else if !s.users[admin].role.Admin? || !s.users[admin].status.Active? then Reply(s, Err(AdminOnly))
    else if ActiveCount(s) >= EdgeLimit(s.modules) then Reply(s, Err(LimitReached))
    else if Deployed(s, module'.value.id) then Reply(s, Err(AlreadyDeployed))
    else Reply(s.(deployments := s.deployments + [Deployment(s.nextId, module'.value.id, Requested)],
                  nextId := s.nextId + 1), Ok(s.nextId))
  }

  function StopAll(ds: seq<Deployment>, id: int): seq<Deployment> {
    seq(|ds|, i requires 0 <= i < |ds| => if ds[i].id == id then ds[i].(stage := Stopped) else ds[i])
  }

  function Stop(s: State, id: int): Reply<()> {
    if forall i :: 0 <= i < |s.deployments| ==> s.deployments[i].id != id then Reply(s, Err(DeploymentNotFound))
    else Reply(s.(deployments := StopAll(s.deployments, id)), Ok(()))
  }

  function WithHealth(ms: seq<Module>, slug: string, h: Health): seq<Module> {
    seq(|ms|, i requires 0 <= i < |ms| => if ms[i].slug == slug then ms[i].(status := h) else ms[i])
  }

  function SetEnabled(env: Env, s: State, slug: string, enabled: bool): Reply<()> {
    var name := env.lower(env.strip(slug));
    if name == "" then Reply(s, Err(SlugRequired))
    else if forall i :: 0 <= i < |s.modules| ==> s.modules[i].slug != name then Reply(s, Err(ModuleNotFound))
    else Reply(s.(modules := WithHealth(s.modules, name, if enabled then Detected else Absent)), Ok(()))
  }

  class EdgeNodeService {
    const env: Env
    var modules: seq<Module>
    var deployments: seq<Deployment>
    var nextId: int
    var users: map<int, User>

    constructor (env: Env, modules: seq<Module>, users: map<int, User>)
      ensures this.env == env && View() == State(modules, [], 1, users)
    {
      this.env, this.modules, this.users := env, modules, users;
      deployments, nextId := [], 1;
    }

    function View(): State
      reads this
    {
      State(modules, deployments, nextId, users)
    }

    method ResolveEdgeModule(requested: string) returns (result: Result<Module, Error>)
      ensures result == Resolve(env, modules, requested)
    {
      for i := 0 to |modules|
        invariant Resolve(env, modules, requested) == Resolve(env, modules[i..], requested)
      {
        var m := modules[i];
        if env.lower(m.id) == env.lower(requested) || env.lower(m.slug) == env.lower(requested) {
          if !EdgeKind(m.kind) { return Err(NotEdgeModule); }
          if !Usable(m.status) { return Err(ModuleNotDetected); }
          return Ok(m);
        }
        assert modules[i..][1..] == modules[i + 1..];
      }
      return Err(ModuleNotFound);
    }

    method DeployNode(admin: int, moduleId: string, ssid: string, password: string) returns (result: Result<int, Error>)
      modifies this
      ensures Reply(View(), result) == Deploy(env, old(View()), admin, moduleId, ssid, password)
    {
      if env.strip(moduleId) == "" { return Err(InvalidModuleId); }
      if env.strip(ssid) == "" { return Err(InvalidSsid); }
      if password == "" { return Err(InvalidPassword); }
      var found := ResolveEdgeModule(env.strip(moduleId));
      if found.Err? { return Err(found.error); }
      if admin !in users { return Err(AdminNotFound); }
      if !users[admin].role.Admin? || !users[admin].status.Active? { return Err(AdminOnly); }
      var edgeLimit := EdgeLimit(modules);
      if ActiveCount(View()) >= edgeLimit { return Err(LimitReached); }
      if exists i :: 0 <= i < |deployments| && deployments[i].moduleId == found.value.id && Serving(deployments[i]) {
        return Err(AlreadyDeployed);
      }
      var id := nextId;
      deployments, nextId := deployments + [Deployment(id, found.value.id, Requested)], id + 1;
      return Ok(id);
    }

    method StopNode(id: int) returns (result: Result<(), Error>)
      modifies this
      ensures Reply(View(), result) == Stop(old(View()), id)
    {
      if forall i :: 0 <= i < |deployments| ==> deployments[i].id != id { return Err(DeploymentNotFound); }
      deployments := StopAll(deployments, id);
      return Ok(());
    }

    method SetModuleEnabled(slug: string, enabled: bool) returns (result: Result<(), Error>)
      modifies this
      ensures Reply(View(), result) == SetEnabled(env, old(View()), slug, enabled)
    {
      var name := env.lower(env.strip(slug));
      if name == "" { return Err(SlugRequired); }
      if forall i :: 0 <= i < |modules| ==> modules[i].slug != name { return Err(ModuleNotFound); }
      modules := WithHealth(modules, name, if enabled then Detected else Absent);
      return Ok(());
    }
  }

  // ---------------------------------------------------------------- whole runs

  datatype Op =
    | DeployOp(admin: int, moduleId: string, ssid: string, password: string)
    | StopOp(deployment: int)
    | EnableOp(slug: string, enabled: bool)

  function Apply(env: Env, s: State, op: Op): State {
    match op
    case DeployOp(admin, moduleId, ssid, password) => Deploy(env, s, admin, moduleId, ssid, password).state
    case StopOp(id) => Stop(s, id).state
    case EnableOp(slug, enabled) => SetEnabled(env, s, slug, enabled).state
  }

  function Run(env: Env, s: State, ops: seq<Op>): State {
    if ops == [] then s else Apply(env, Run(env, s, ops[..|ops| - 1]), ops[|ops| - 1])
  }

  /** Module ids are unique (they are the primary key). */
  ghost predicate UniqueIds(ms: seq<Module>) {
    forall i, j :: 0 <= i < j < |ms| ==> ms[i].id != ms[j].id
  }

  ghost predicate OneEach(ds: seq<Deployment>) {
    forall i, j :: 0 <= i < j < |ds| && Serving(ds[i]) && Serving(ds[j]) ==> ds[i].moduleId != ds[j].moduleId
  }

  /** At most four active deployments, and never two on one module; and ids are handed out once. */
  ghost predicate Sound(s: State) {
    && UniqueIds(s.modules) && OneEach(s.deployments) && ActiveCount(s) <= MAX_EDGE_NODES
    && forall i :: 0 <= i < |s.deployments| ==> s.deployments[i].id < s.nextId
  }

  /** The names of the selected rows. */
  function Names<T>(p: T -> bool, name: T -> string, s: seq<T>): set<string> {
    set i | 0 <= i < |s| && p(s[i]) :: name(s[i])
  }

  function ModuleOf(): Deployment -> string { (d: Deployment) => d.moduleId }

  function IdOf(): Module -> string { (m: Module) => m.id }

  /** The modules that carry an active deployment. */
  function Busy(ds: seq<Deployment>): set<string> { Names(IsActive(), ModuleOf(), ds) }

  /** The modules that can be deployed to. */
  function Ready(ms: seq<Module>): set<string> { Names(IsUsableEdge(), IdOf(), ms) }

  lemma NamesFirst<T>(p: T -> bool, name: T -> string, s: seq<T>)
    requires s != []
    ensures Names(p, name, s) == Names(p, name, s[1..]) + if p(s[0]) then {name(s[0])} else {}
  {
    var all, rest := Names(p, name, s), Names(p, name, s[1..]);
    forall x | x in all ensures x in rest || (p(s[0]) && x == name(s[0])) {
      var i :| 0 <= i < |s| && p(s[i]) && name(s[i]) == x;
      assert i > 0 ==> s[1..][i - 1] == s[i];
    }
    forall x | x in rest ensures x in all {
      var i :| 0 <= i < |s[1..]| && p(s[1..][i]) && name(s[1..][i]) == x;
      assert s[i + 1] == s[1..][i];
    }
  }

  /** Where no two selected rows share a name, counting rows is counting names. */
  lemma {:induction false} CountNames<T>(p: T -> bool, name: T -> string, s: seq<T>)
    requires forall i, j :: 0 <= i < j < |s| && p(s[i]) && p(s[j]) ==> name(s[i]) != name(s[j])
    ensures |Filter(p, s)| == |Names(p, name, s)|
  {
    if s == [] {
      assert Names(p, name, s) == {};
    } else {
      CountNames(p, name, s[1..]);
      NamesFirst(p, name, s);
      assert p(s[0]) ==> name(s[0]) !in Names(p, name, s[1..]);
    }
  }

  lemma {:induction false} FewerActive(ds: seq<Deployment>, id: int)
    ensures |Filter(IsActive(), StopAll(ds, id))| <= |Filter(IsActive(), ds)|
  {
    if ds != [] {
      FewerActive(ds[1..], id);
      assert StopAll(ds, id)[1..] == StopAll(ds[1..], id);
    }
  }

  lemma DeployKeepsSound(env: Env, s: State, admin: int, moduleId: string, ssid: string, password: string)
    requires Sound(s)
    ensures Sound(Deploy(env, s, admin, moduleId, ssid, password).state)
  {
    var s' := Deploy(env, s, admin, moduleId, ssid, password).state;
    if s' != s {
      FilterConcat(IsActive(), s.deployments, [s'.deployments[|s.deployments|]]);
      assert forall i :: 0 <= i < |s.deployments| ==> s'.deployments[i] == s.deployments[i];
    }
  }

  lemma ApplyKeepsSound(env: Env, s: State, op: Op)
    requires Sound(s)
    ensures Sound(Apply(env, s, op))
  {
    match op
    case DeployOp(admin, moduleId, ssid, password) => DeployKeepsSound(env, s, admin, moduleId, ssid, password);
    case StopOp(id) => FewerActive(s.deployments, id);
    case EnableOp(slug, enabled) =>
      assert forall i :: 0 <= i < |s.modules| ==> Apply(env, s, op).modules[i].id == s.modules[i].id;
  }

  /** Over any run of deploys, stops and module switches: never more than four active deployments,
      never two on one module. */
  lemma {:induction false} AlwaysSound(env: Env, s: State, ops: seq<Op>)
    requires Sound(s)
    ensures Sound(Run(env, s, ops))
  {
    if ops != [] {
      AlwaysSound(env, s, ops[..|ops| - 1]);
      ApplyKeepsSound(env, Run(env, s, ops[..|ops| - 1]), ops[|ops| - 1]);
    }
  }

  /** The capacity check is meant to refuse only when nothing is free. Where at most four modules can
      be deployed to, it refuses exactly when at least as many busy modules have since been
      switched off as free ones remain. */
  lemma RefusesIffStrandedCoverFree(env: Env, s: State, ops: seq<Op>)
    requires Sound(s) && |Ready(Run(env, s, ops).modules)| <= MAX_EDGE_NODES
    ensures var t := Run(env, s, ops);
            ActiveCount(t) >= EdgeLimit(t.modules)
            <==> |Busy(t.deployments) - Ready(t.modules)| >= |Ready(t.modules) - Busy(t.deployments)|
  {
    AlwaysSound(env, s, ops);
    var t := Run(env, s, ops);
    var busy, ready := Busy(t.deployments), Ready(t.modules);
    CountNames(IsActive(), ModuleOf(), t.deployments);
    CountNames(IsUsableEdge(), IdOf(), t.modules);
    CommonPart(busy, ready);
  }

  lemma CommonPart(a: set<string>, b: set<string>)
    ensures |a| - |a - b| == |b| - |b - a|
  {
    assert a == (a * b) + (a - b);
    assert b == (a * b) + (b - a);
  }

  // ---------------------------------------------------------------- the server's own registry

  /** The rows the registry is seeded with before every read, by slug. */
  function DefaultModules(): seq<Module> {
    [Module("atom-s3-client", "atom-s3", AtomS3, Absent),
     Module("esp32-s3-edge", "esp32-s3", Esp32S3, Absent),
     Module("external-clients", "external-clients", ExternalClient, Absent),
     Module("m5stamp-s3-edge", "m5stamp-s3", M5StampS3, Absent),
     Module("m5tab-hmi", "m5tab", M5Tab, Absent),
     Module("pn532-i2c", "pn532", Pn532, Absent),
     Module("raspberry-pi-host", "raspberry-pi", RaspberryPi, Okay)]
  }

  function NewServer(users: map<int, User>): State { State(DefaultModules(), [], 1, users) }

  /** The rows seeding would add: those whose id is not there yet. */
  function Unseeded(ms: seq<Module>): seq<Module> { Filter(NotAmong(ms), DefaultModules()) }

  function NotAmong(ms: seq<Module>): Module -> bool {
    (d: Module) => forall i :: 0 <= i < |ms| ==> ms[i].id != d.id
  }

  lemma DefaultsDiffer()
    ensures UniqueIds(DefaultModules())
  {
    var ms := DefaultModules();
    assert |ms[0].id| == 14 && |ms[1].id| == 13 && |ms[2].id| == 16 && |ms[3].id| == 15 && |ms[6].id| == 17;
    assert ms[4].id[0] == 'm' && ms[5].id[0] == 'p' && |ms[4].id| == |ms[5].id| == 9;
  }

  /** The same rows, with other states of health. */
  ghost predicate SameRows(ms: seq<Module>, ms': seq<Module>) {
    |ms'| == |ms| && forall i :: 0 <= i < |ms| ==> ms'[i] == ms[i].(status := ms'[i].status)
  }

  lemma {:induction false} RunKeepsRows(env: Env, s: State, ops: seq<Op>)
    ensures SameRows(s.modules, Run(env, s, ops).modules)
  {
    if ops != [] { RunKeepsRows(env, s, ops[..|ops| - 1]); }
  }

  /** On a server's own registry every run is sound, seeding it again adds nothing, and the premise of
      the results on the capacity check always holds: there are two modules that can be deployed to. */
  lemma ServerRegistry(env: Env, users: map<int, User>, ops: seq<Op>)
    ensures var t := Run(env, NewServer(users), ops);
            Sound(t) && Unseeded(t.modules) == [] && |Ready(t.modules)| <= 2
  {
    var s, t := NewServer(users), Run(env, NewServer(users), ops);
    DefaultsDiffer();
    AlwaysSound(env, s, ops);
    RunKeepsRows(env, s, ops);
    forall d | d in DefaultModules() ensures !NotAmong(t.modules)(d) {
      var i :| 0 <= i < |s.modules| && s.modules[i] == d;
      assert t.modules[i].id == d.id;
    }
    FilterNone(NotAmong(t.modules), DefaultModules());
    ReadyAmongTwo(t.modules);
  }

  lemma ReadyAmongTwo(ms: seq<Module>)
    requires SameRows(DefaultModules(), ms)
    ensures |Ready(ms)| <= 2
  {
    var both := {ms[1].id, ms[3].id};
    forall id | id in Ready(ms) ensures id in both {
      var i :| 0 <= i < |ms| && IsUsableEdge()(ms[i]) && IdOf()(ms[i]) == id;
      assert EdgeKind(DefaultModules()[i].kind);
    }
    SmallerThanTwo(Ready(ms), ms[1].id, ms[3].id);
  }

  lemma SmallerThanTwo(a: set<string>, x: string, y: string)
    requires a <= {x, y}
    ensures |a| <= 2
  {
    assert {x, y} == a + ({x, y} - a);
    assert |{x, y}| <= 2;
  }

  // ---------------------------------------------------------------- a free module that is refused

  const PLAIN := Env((s: string) => s, (s: string) => s)

  /** Only the row at this place has this slug or id. */
  ghost predicate OnlyNamed(ms: seq<Module>, at: nat, name: string) {
    at < |ms| && ms[at].slug == name
    && forall i :: 0 <= i < |ms| ==> ms[i].id != name && (ms[i].slug == name ==> i == at)
  }

  lemma EdgeNames(ms: seq<Module>)
    requires SameRows(DefaultModules(), ms)
    ensures OnlyNamed(ms, 1, "esp32-s3") && OnlyNamed(ms, 3, "m5stamp-s3")
  {
    var ds := DefaultModules();
    assert |ds[0].id| == 14 && |ds[1].id| == 13 && |ds[2].id| == 16 && |ds[3].id| == 15;
    assert |ds[4].id| == 9 && |ds[5].id| == 9 && |ds[6].id| == 17;
    assert |ds[0].slug| == 7 && |ds[1].slug| == 8 && |ds[2].slug| == 16 && |ds[3].slug| == 10;
    assert |ds[4].slug| == 5 && |ds[5].slug| == 5 && |ds[6].slug| == 12;
    assert |"esp32-s3"| == 8 && |"m5stamp-s3"| == 10;
    assert forall i :: 0 <= i < 7 ==> ms[i].id == ds[i].id && ms[i].slug == ds[i].slug;
  }

  lemma SwitchAt(s: State, at: nat, slug: string, enabled: bool)
    requires OnlyNamed(s.modules, at, slug) && slug != ""
    ensures SetEnabled(PLAIN, s, slug, enabled).state
         == s.(modules := s.modules[at := s.modules[at].(status := if enabled then Detected else Absent)])
  {
    var h := if enabled then Detected else Absent;
    assert WithHealth(s.modules, slug, h) == s.modules[at := s.modules[at].(status := h)];
  }

  lemma {:induction false} ResolveAt(ms: seq<Module>, at: nat, name: string)
    requires OnlyNamed(ms, at, name) && UsableEdge(ms[at])
    ensures Resolve(PLAIN, ms, name) == Ok(ms[at])
  {
    if at > 0 {
      assert !Named(PLAIN, ms[0], name);
      ResolveAt(ms[1..], at - 1, name);
    }
  }

  lemma {:induction false} FilterAlone<T(!new)>(p: T -> bool, s: seq<T>, at: nat)
    requires at < |s| && forall i :: 0 <= i < |s| ==> (p(s[i]) <==> i == at)
    ensures Filter(p, s) == [s[at]]
  {
    if at == 0 {
      forall x | x in s[1..] ensures !p(x) {
        var i :| 0 <= i < |s| - 1 && s[1..][i] == x;
        assert s[i + 1] == x;
      }
      FilterNone(p, s[1..]);
    } else {
      FilterAlone(p, s[1..], at - 1);
    }
  }

  /** The registry with the two edge modules in these states, and everything else as seeded. */
  function Edges(esp32: Health, m5stamp: Health): seq<Module> {
    DefaultModules()[1 := DefaultModules()[1].(status := esp32)][3 := DefaultModules()[3].(status := m5stamp)]
  }

  const ADMIN := map[1 := User(Admin, Active)]

  lemma DeployAt(s: State, at: nat, name: string)
    requires OnlyNamed(s.modules, at, name) && UsableEdge(s.modules[at]) && name != ""
    requires s.deployments == [] && s.users == ADMIN
    ensures Deploy(PLAIN, s, 1, name, "net", "pw").state
         == s.(deployments := [Deployment(s.nextId, s.modules[at].id, Requested)], nextId := s.nextId + 1)
  {
    ResolveAt(s.modules, at, name);
    FilterMembers(IsUsableEdge(), s.modules);
    assert s.modules[at] in Filter(IsUsableEdge(), s.modules);
    assert Filter(IsActive(), s.deployments) == [];
  }

  lemma RefusedAt(s: State, at: nat, name: string)
    requires OnlyNamed(s.modules, at, name) && name != "" && s.users == ADMIN
    requires forall i :: 0 <= i < |s.modules| ==> (UsableEdge(s.modules[i]) <==> i == at)
    requires |s.deployments| == 1 && Serving(s.deployments[0]) && s.deployments[0].moduleId != s.modules[at].id
    ensures s.modules[at].id in Ready(s.modules) && s.modules[at].id !in Busy(s.deployments)
    ensures Deploy(PLAIN, s, 1, name, "net", "pw").result == Err(LimitReached)
  {
    ResolveAt(s.modules, at, name);
    FilterAlone(IsUsableEdge(), s.modules, at);
    FilterAlone(IsActive(), s.deployments, 0);
    assert IsUsableEdge()(s.modules[at]) && IdOf()(s.modules[at]) == s.modules[at].id;
  }

  lemma NextRun(env: Env, s: State, ops: seq<Op>, op: Op)
    ensures Run(env, s, ops + [op]) == Apply(env, Run(env, s, ops), op)
  {
    assert (ops + [op])[..|ops|] == ops;
  }

  /** Both edge modules are switched on, the first is deployed to and then switched off. */
  function Stranding(): seq<Op> {
    [EnableOp("esp32-s3", true)] + [EnableOp("m5stamp-s3", true)]
    + [DeployOp(1, "esp32-s3", "net", "pw")] + [EnableOp("esp32-s3", false)]
  }

  lemma BothSwitchedOn()
    ensures var s := Apply(PLAIN, NewServer(ADMIN), EnableOp("esp32-s3", true));
            Apply(PLAIN, s, EnableOp("m5stamp-s3", true)) == State(Edges(Detected, Detected), [], 1, ADMIN)
  {
    var s0 := NewServer(ADMIN);
    EdgeNames(s0.modules);
    SwitchAt(s0, 1, "esp32-s3", true);
    var s1 := Apply(PLAIN, s0, EnableOp("esp32-s3", true));
    assert SameRows(DefaultModules(), s1.modules);
    EdgeNames(s1.modules);
    SwitchAt(s1, 3, "m5stamp-s3", true);
  }

  /** The first edge module carries a deployment, and is in this state. */
  function FirstBusy(esp32: Health): State {
    State(Edges(esp32, Detected), [Deployment(1, "esp32-s3-edge", Requested)], 2, ADMIN)
  }

  lemma FirstDeployed()
    ensures Apply(PLAIN, State(Edges(Detected, Detected), [], 1, ADMIN), DeployOp(1, "esp32-s3", "net", "pw"))
         == FirstBusy(Detected)
  {
    EdgeNames(Edges(Detected, Detected));
    DeployAt(State(Edges(Detected, Detected), [], 1, ADMIN), 1, "esp32-s3");
  }

  lemma FirstSwitchedOff()
    ensures Apply(PLAIN, FirstBusy(Detected), EnableOp("esp32-s3", false)) == FirstBusy(Absent)
  {
    var ms := Edges(Detected, Detected);
    EdgeNames(ms);
    SwitchAt(FirstBusy(Detected), 1, "esp32-s3", false);
    assert Edges(Absent, Detected) == ms[1 := ms[1].(status := Absent)];
  }

  lemma StrandingRun()
    ensures Run(PLAIN, NewServer(ADMIN), Stranding()) == FirstBusy(Absent)
  {
    RunOfFour(NewServer(ADMIN), EnableOp("esp32-s3", true), EnableOp("m5stamp-s3", true),
              DeployOp(1, "esp32-s3", "net", "pw"), EnableOp("esp32-s3", false));
    BothSwitchedOn();
    FirstDeployed();
    FirstSwitchedOff();
  }

  lemma RunOfFour(s: State, a: Op, b: Op, c: Op, d: Op)
    ensures Run(PLAIN, s, [a] + [b] + [c] + [d])
         == Apply(PLAIN, Apply(PLAIN, Apply(PLAIN, Apply(PLAIN, s, a), b), c), d)
  {
    NextRun(PLAIN, s, [], a);
    NextRun(PLAIN, s, [a], b);
    NextRun(PLAIN, s, [a] + [b], c);
    NextRun(PLAIN, s, [a] + [b] + [c], d);
    assert [] + [a] == [a];
  }

  /** A free module that is refused, on a new server: the esp32 is deployed to and switched off, and then
      the m5stamp, ready and free, is refused because the limit is said to be reached. */
  lemma FreeModuleRefused()
    ensures var t := Run(PLAIN, NewServer(ADMIN), Stranding());
            && "m5stamp-s3-edge" in Ready(t.modules) && "m5stamp-s3-edge" !in Busy(t.deployments)
            && Deploy(PLAIN, t, 1, "m5stamp-s3", "net", "pw").result == Err(LimitReached)
  {
    StrandingRun();
    EdgeNames(FirstBusy(Absent).modules);
    assert |"m5stamp-s3-edge"| == 15 && |"esp32-s3-edge"| == 13;
    RefusedAt(FirstBusy(Absent), 3, "m5stamp-s3");
  }

  /** Stopping a new deployment undoes it: as many are active as before, on the same modules, and
      the rest of the table is as it was. */
  lemma StopUndoesDeploy(env: Env, s: State, admin: int, moduleId: string, ssid: string, password: string)
    requires Sound(s) && Deploy(env, s, admin, moduleId, ssid, password).result.Ok?
    ensures var r := Deploy(env, s, admin, moduleId, ssid, password);
            var stopped := Stop(r.state, r.result.value);
            && stopped.result.Ok? && ActiveCount(r.state) == ActiveCount(s) + 1
            && stopped.state.deployments == s.deployments + [r.state.deployments[|s.deployments|].(stage := Stopped)]
            && ActiveCount(stopped.state) == ActiveCount(s) && Busy(stopped.state.deployments) == Busy(s.deployments)
  {
    var s1, id := Deploy(env, s, admin, moduleId, ssid, password).state,
      Deploy(env, s, admin, moduleId, ssid, password).result.value;
    var added, s2 := s1.deployments[|s.deployments|], Stop(s1, id).state;
    assert s2.deployments == s.deployments + [added.(stage := Stopped)];
    FilterConcat(IsActive(), s.deployments, [added]);
    FilterConcat(IsActive(), s.deployments, [added.(stage := Stopped)]);
    SameNames(s.deployments, added.(stage := Stopped));
  }

  lemma SameNames(ds: seq<Deployment>, stopped: Deployment)
    requires !Serving(stopped)
    ensures Busy(ds + [stopped]) == Busy(ds)
  {
    forall name ensures name in Busy(ds + [stopped]) <==> name in Busy(ds) {
      if name in Busy(ds) {
        var i :| 0 <= i < |ds| && Serving(ds[i]) && ds[i].moduleId == name;
        assert (ds + [stopped])[i] == ds[i];
      }
    }
  }

  /** Whether this call switches off a module that carries an active deployment. */
  ghost predicate Strands(env: Env, s: State, op: Op) {
    var slug := if op.EnableOp? then env.lower(env.strip(op.slug)) else "";
    op.EnableOp? && !op.enabled
    && exists i :: 0 <= i < |s.modules| && s.modules[i].slug == slug && Deployed(s, s.modules[i].id)
  }

  ghost predicate NeverStrands(env: Env, s: State, ops: seq<Op>) {
    ops == [] || (NeverStrands(env, s, ops[..|ops| - 1])
                  && !Strands(env, Run(env, s, ops[..|ops| - 1]), ops[|ops| - 1]))
  }

  lemma {:induction false} ResolveFindsReady(env: Env, ms: seq<Module>, requested: string)
    requires Resolve(env, ms, requested).Ok?
    ensures Resolve(env, ms, requested).value in ms && UsableEdge(Resolve(env, ms, requested).value)
  {
    if !Named(env, ms[0], requested) { ResolveFindsReady(env, ms[1..], requested); }
  }

  lemma DeployKeepsCovered(env: Env, s: State, admin: int, moduleId: string, ssid: string, password: string)
    requires Busy(s.deployments) <= Ready(s.modules)
    ensures Busy(Deploy(env, s, admin, moduleId, ssid, password).state.deployments) <= Ready(s.modules)
  {
    var s' := Deploy(env, s, admin, moduleId, ssid, password).state;
    if s' != s {
      ResolveFindsReady(env, s.modules, env.strip(moduleId));
      var m := Resolve(env, s.modules, env.strip(moduleId)).value;
      assert m.id in Ready(s.modules);
      forall b | b in Busy(s'.deployments) ensures b in Ready(s.modules) {
        var i :| 0 <= i < |s'.deployments| && Serving(s'.deployments[i]) && s'.deployments[i].moduleId == b;
        if i < |s.deployments| { assert s.deployments[i] == s'.deployments[i] && b in Busy(s.deployments); }
      }
    }
  }

  lemma SwitchKeepsCovered(env: Env, s: State, op: Op)
    requires op.EnableOp? && Busy(s.deployments) <= Ready(s.modules) && !Strands(env, s, op)
    ensures Busy(s.deployments) <= Ready(Apply(env, s, op).modules)
  {
    var s' := Apply(env, s, op);
    forall b | b in Busy(s.deployments) ensures b in Ready(s'.modules) {
      assert b in Ready(s.modules);
      var i :| 0 <= i < |s.modules| && UsableEdge(s.modules[i]) && s.modules[i].id == b;
      var k :| 0 <= k < |s.deployments| && Serving(s.deployments[k]) && s.deployments[k].moduleId == b;
      assert Deployed(s, s.modules[i].id);
      assert UsableEdge(s'.modules[i]) && s'.modules[i].id == b;
    }
  }

  lemma StepKeepsCovered(env: Env, s: State, op: Op)
    requires Busy(s.deployments) <= Ready(s.modules) && !Strands(env, s, op)
    ensures var s' := Apply(env, s, op); Busy(s'.deployments) <= Ready(s'.modules)
  {
    match op
    case DeployOp(admin, moduleId, ssid, password) => DeployKeepsCovered(env, s, admin, moduleId, ssid, password);
    case EnableOp(_, _) => SwitchKeepsCovered(env, s, op);
    case StopOp(id) =>
      var s' := Apply(env, s, op);
      forall b | b in Busy(s'.deployments) ensures b in Busy(s.deployments) {
        var i :| 0 <= i < |s'.deployments| && Serving(s'.deployments[i]) && s'.deployments[i].moduleId == b;
        assert s'.deployments[i] == s.deployments[i];
      }
  }

  lemma {:induction false} RunKeepsCovered(env: Env, s: State, ops: seq<Op>)
    requires Sound(s) && Busy(s.deployments) <= Ready(s.modules) && NeverStrands(env, s, ops)
    ensures Busy(Run(env, s, ops).deployments) <= Ready(Run(env, s, ops).modules)
  {
    if ops != [] {
      RunKeepsCovered(env, s, ops[..|ops| - 1]);
      AlwaysSound(env, s, ops[..|ops| - 1]);
      StepKeepsCovered(env, Run(env, s, ops[..|ops| - 1]), ops[|ops| - 1]);
    }
  }

  /** The pigeonhole promise: as long as no module is switched off under an active deployment and at
      most four are ready, the capacity check never stands in the way of a free ready module. */
  lemma {:induction false} FreeModuleHasCapacity(env: Env, s: State, ops: seq<Op>, free: string)
    requires Sound(s) && Busy(s.deployments) <= Ready(s.modules) && NeverStrands(env, s, ops)
    requires |Ready(Run(env, s, ops).modules)| <= MAX_EDGE_NODES
    requires free in Ready(Run(env, s, ops).modules) && free !in Busy(Run(env, s, ops).deployments)
    ensures ActiveCount(Run(env, s, ops)) < EdgeLimit(Run(env, s, ops).modules)
  {
    RunKeepsCovered(env, s, ops);
    RefusesIffStrandedCoverFree(env, s, ops);
    var t := Run(env, s, ops);
    assert Busy(t.deployments) - Ready(t.modules) == {};
    assert free in Ready(t.modules) - Busy(t.deployments);
  }

  // ---------------------------------------------------------------- who changes what

  predicate Board(m: Module) { m.kind == M5StampS3 || m.kind == Esp32S3 }

  predicate Called(env: Env, m: Module, name: string) {
    env.lower(name) == env.lower(m.id) || env.lower(name) == env.lower(m.slug)
  }

  /** The i-th module is the one a name stands for. */
  predicate StandsFor(env: Env, ms: seq<Module>, name: string, i: int) {
    0 <= i < |ms| && Called(env, ms[i], name) && forall j :: 0 <= j < i ==> !Called(env, ms[j], name)
  }

  /** The deployments that have not been stopped, and the boards that have been detected. */
  function Standing(s: State): set<int> { set i | 0 <= i < |s.deployments| && s.deployments[i].stage != Stopped }

  function Boards(s: State): set<int> {
    set i | 0 <= i < |s.modules| && Board(s.modules[i]) && s.modules[i].status != Absent
  }

  /** A deployment to the i-th module goes through: an active administrator asks for it, with a network
      and a password; the module is a detected board without a deployment; and fewer than four are
      standing, and fewer than there are boards. */
  ghost predicate Grants(env: Env, s: State, op: Op, i: int) {
    && op.DeployOp? && StandsFor(env, s.modules, env.strip(op.moduleId), i)
    && env.strip(op.moduleId) != "" && env.strip(op.ssid) != "" && op.password != ""
    && Board(s.modules[i]) && s.modules[i].status != Absent
    && op.admin in s.users && s.users[op.admin].role == Admin && s.users[op.admin].status == Active
    && |Standing(s)| < 4 && |Standing(s)| < |Boards(s)|
    && forall j :: j in Standing(s) ==> s.deployments[j].moduleId != s.modules[i].id
  }

  function Where<T>(p: T -> bool, s: seq<T>): set<int> { set i | 0 <= i < |s| && p(s[i]) }

  lemma {:induction false} FilterCounts<T>(p: T -> bool, s: seq<T>)
    ensures |Filter(p, s)| == |Where(p, s)|
  {
    if s == [] {
      assert Where(p, s) == {};
    } else {
      var init, last := s[..|s| - 1], s[|s| - 1];
      assert s == init + [last];
      FilterCounts(p, init);
      FilterOneMore(p, init, last);
      WhereOneMore(p, init, last);
    }
  }

  lemma WhereOneMore<T>(p: T -> bool, s: seq<T>, x: T)
    ensures Where(p, s + [x]) == Where(p, s) + if p(x) then {|s|} else {}
  {
  }

  lemma {:induction false} FilterOneMore<T>(p: T -> bool, s: seq<T>, x: T)
    ensures Filter(p, s + [x]) == Filter(p, s) + if p(x) then [x] else []
  {
    if s != [] {
      assert (s + [x])[0] == s[0] && (s + [x])[1..] == s[1..] + [x];
      FilterOneMore(p, s[1..], x);
    }
  }

  lemma {:induction false} ResolveStandsFor(env: Env, ms: seq<Module>, name: string)
    ensures match Resolve(env, ms, name)
            case Ok(m) => exists i :: StandsFor(env, ms, name, i) && ms[i] == m && Board(m) && m.status != Absent
            case Err(_) =>
              forall i :: StandsFor(env, ms, name, i) ==> !(Board(ms[i]) && ms[i].status != Absent)
  {
    if ms != [] {
      var rest := ms[1..];
      if Called(env, ms[0], name) {
        assert StandsFor(env, ms, name, 0);
      } else {
        ResolveStandsFor(env, rest, name);
        forall i | 0 < i < |ms| ensures StandsFor(env, rest, name, i - 1) <==> StandsFor(env, ms, name, i) {
          CalledShifts(env, ms, name, i);
        }
        if Resolve(env, ms, name).Ok? {
          var i :| StandsFor(env, rest, name, i) && rest[i] == Resolve(env, ms, name).value;
          CalledShifts(env, ms, name, i + 1);
          assert StandsFor(env, ms, name, i + 1) && ms[i + 1] == rest[i];
        }
      }
    }
  }

  lemma CalledShifts(env: Env, ms: seq<Module>, name: string, i: int)
    requires 0 < i && ms != [] && !Called(env, ms[0], name)
    ensures StandsFor(env, ms[1..], name, i - 1) <==> StandsFor(env, ms, name, i)
  {
    var rest := ms[1..];
    if StandsFor(env, rest, name, i - 1) {
      forall j | 0 <= j < i ensures !Called(env, ms[j], name) { assert j > 0 ==> ms[j] == rest[j - 1]; }
    }
    if StandsFor(env, ms, name, i) {
      forall j | 0 <= j < i - 1 ensures !Called(env, rest[j], name) { assert rest[j] == ms[j + 1]; }
    }
  }

  lemma CapacityCounts(s: State)
    ensures ActiveCount(s) == |Standing(s)|
    ensures ActiveCount(s) < EdgeLimit(s.modules) <==> |Standing(s)| < 4 && |Standing(s)| < |Boards(s)|
  {
    FilterCounts(IsActive(), s.deployments);
    FilterCounts(IsUsableEdge(), s.modules);
    assert Standing(s) == Where(IsActive(), s.deployments);
    assert Boards(s) == Where(IsUsableEdge(), s.modules);
  }

  /** A deployment is answered with its id exactly when it is granted, and then it stands on that module. */
  lemma DeployGrantedIff(env: Env, s: State, op: Op)
    requires op.DeployOp?
    ensures var r := Deploy(env, s, op.admin, op.moduleId, op.ssid, op.password);
            && (r.result.Ok? <==> exists i :: Grants(env, s, op, i))
            && (r.result.Err? ==> r.state == s)
            && forall i :: Grants(env, s, op, i) ==>
                 && r.result == Ok(s.nextId)
                 && r.state == s.(deployments := s.deployments + [Deployment(s.nextId, s.modules[i].id, Requested)],
                                  nextId := s.nextId + 1)
  {
    var name := env.strip(op.moduleId);
    CapacityCounts(s);
    ResolveStandsFor(env, s.modules, name);
    if Resolve(env, s.modules, name).Ok? {
      var m := Resolve(env, s.modules, name).value;
      var i :| StandsFor(env, s.modules, name, i) && s.modules[i] == m;
      assert forall k :: StandsFor(env, s.modules, name, k) ==> k == i;
      assert Deploy(env, s, op.admin, op.moduleId, op.ssid, op.password).result.Ok? ==> Grants(env, s, op, i);
      assert Deployed(s, m.id) <==> exists j :: j in Standing(s) && s.deployments[j].moduleId == m.id;
    }
  }

  /** A call moves only the rows it names: a stop stops its deployment, a switch switches its module,
      and a granted deployment is added behind the others. */
  lemma MovesOnlyItsOwn(env: Env, s: State, op: Op)
    ensures var s' := Apply(env, s, op);
            && |s'.modules| == |s.modules| && s'.users == s.users
            && |s'.deployments| == |s.deployments| + (if exists i :: Grants(env, s, op, i) then 1 else 0)
            && (forall i :: 0 <= i < |s.deployments| ==>
                  s'.deployments[i] == if op == StopOp(s.deployments[i].id) then s.deployments[i].(stage := Stopped)
                                       else s.deployments[i])
            && (forall i :: 0 <= i < |s.modules| ==>
                  s'.modules[i]
                  == if op.EnableOp? && s.modules[i].slug == env.lower(env.strip(op.slug)) && s.modules[i].slug != ""
                     then s.modules[i].(status := if op.enabled then Detected else Absent) else s.modules[i])
  {
    if op.DeployOp? { DeployGrantedIff(env, s, op); }
  }

  /** Where deployments come from: every deployment in the table at the end of a run that was not there
      at its start was granted on its module at some point of the run, under the next free id. */
  lemma {:induction false} DeploymentsWereGranted(env: Env, s: State, ops: seq<Op>, d: nat)
    requires |s.deployments| <= d < |Run(env, s, ops).deployments|
    ensures var row := Run(env, s, ops).deployments[d];
            exists k, i :: 0 <= k < |ops| && Grants(env, Run(env, s, ops[..k]), ops[k], i)
              && row.moduleId == Run(env, s, ops[..k]).modules[i].id && row.id == Run(env, s, ops[..k]).nextId
  {
    var n := |ops| - 1;
    var t, row := Run(env, s, ops[..n]), Run(env, s, ops).deployments[d];
    MovesOnlyItsOwn(env, t, ops[n]);
    if d < |t.deployments| {
      DeploymentsWereGranted(env, s, ops[..n], d);
      var k, i :| 0 <= k < n && Grants(env, Run(env, s, ops[..n][..k]), ops[..n][k], i)
                  && row.moduleId == Run(env, s, ops[..n][..k]).modules[i].id
                  && row.id == Run(env, s, ops[..n][..k]).nextId;
      assert ops[..n][..k] == ops[..k] && ops[..n][k] == ops[k];
    } else {
      var i :| Grants(env, t, ops[n], i);
      DeployGrantedIff(env, t, ops[n]);
      assert ops[..n] == ops[..|ops| - 1];
    }
  }
}
