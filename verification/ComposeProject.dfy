/** A compose project and its boot and shutdown runs (src/runtime/src/compose.rs). */
module ComposeProject {
  import opened Common
  import opened ComposeOrder

  type BoxId = string

  datatype ProjectState = Running | Partial | Stopped

  datatype ProjectError = NoImage(name: Name) | BadPorts(name: Name)
                        | BadCondition(name: Name, dep: Name) | BadOrder(cause: Error)

  datatype Created = Project(project: Project) | Rejected(error: ProjectError)

  /** A condition on a dependency that the runtime does not know. */
  ghost predicate UnknownCondition(d: DependsOn, n: Name) {
    && d.Map? && n in d.conditions
    && d.conditions[n] !in {"service_started", "service_healthy", "service_completed_successfully"}
  }

  ghost predicate ServicesValid(c: Config) {
    forall n :: n in c.services ==> ServiceValid(c.services[n])
  }

  ghost predicate ServiceValid(s: Service) {
    s.image.Some? && s.portsValid && forall d :: !UnknownCondition(s.dependsOn, d)
  }

  /** What a rejection claims about the file is true of the file. */
  ghost predicate RejectionJustified(c: Config, e: ProjectError) {
    match e
    case NoImage(n) => n in c.services && c.services[n].image.None?
    case BadPorts(n) => n in c.services && c.services[n].image.Some? && !c.services[n].portsValid
    case BadCondition(n, d) => n in c.services && UnknownCondition(c.services[n].dependsOn, d)
    case BadOrder(cause) => ServicesValid(c) && Justified(c, cause)
  }

  /** `validate_depends_on_conditions`: a dependency with an unknown condition, if there is one. */
  method FindUnknownCondition(d: DependsOn) returns (bad: Option<Name>)
    ensures bad.Some? ==> UnknownCondition(d, bad.value)
    ensures bad.None? ==> forall n :: !UnknownCondition(d, n)
  {
    if !d.Map? {
      return None;
    }
    var rest := d.conditions.Keys;
    while rest != {}
      invariant rest <= d.conditions.Keys
      invariant forall n :: n in d.conditions.Keys - rest ==> !UnknownCondition(d, n)
    {
      var n :| n in rest;
      var s := d.conditions[n];
      if s != "service_started" && s != "service_healthy" && s != "service_completed_successfully" {
        return Some(n);
      }
      rest := rest - {n};
    }
    bad := None;
  }

  function Reversed<T>(s: seq<T>): (r: seq<T>)
    ensures |r| == |s| && forall i :: 0 <= i < |s| ==> r[i] == s[|s| - 1 - i]
  {
    if s == [] then [] else Reversed(s[1..]) + [s[0]]
  }

  class Project {
    const config: Config
    const serviceOrder: seq<Name>
    var serviceBoxes: map<Name, BoxId>

    constructor (config: Config, order: seq<Name>)
      ensures this.config == config && serviceOrder == order && serviceBoxes == map[]
    {
      this.config, serviceOrder, serviceBoxes := config, order, map[];
    }

    /** `with_base_dir`: a project exists exactly for a file whose services are all valid and
        whose dependencies are defined and acyclic, and it starts with nothing running. */
    static method WithBaseDir(config: Config) returns (r: Created)
      ensures r.Project? <==> ServicesValid(config) && AllDefined(config) && Acyclic(config)
      ensures r.Project? ==> fresh(r.project) && r.project.config == config && r.project.serviceBoxes == map[]
      ensures r.Project? ==> BootOrder(config, r.project.serviceOrder)
      ensures r.Rejected? ==> RejectionJustified(config, r.error)
    {
      var rest := config.services.Keys;
      while rest != {}
        invariant rest <= config.services.Keys
        invariant forall n :: n in config.services.Keys - rest ==> ServiceValid(config.services[n])
      {
        var n :| n in rest;
        var svc := config.services[n];
        if svc.image.None? {
          return Rejected(NoImage(n));
        }
        if !svc.portsValid {
          return Rejected(BadPorts(n));
        }
        var bad := FindUnknownCondition(svc.dependsOn);
        if bad.Some? {
          return Rejected(BadCondition(n, bad.value));
        }
        rest := rest - {n};
      }
      var order := ServiceOrder(config);
      match order
      case Err(e) => r := Rejected(BadOrder(e));
      case Ok(names) =>
        var p := new Project(config, names);
        r := Project(p);
    }

    /** `state` compares two lengths; `StateIsExact` says when that is the right answer. */
    method State() returns (s: ProjectState)
      ensures s == StateOf(config, serviceBoxes)
    {
      if |serviceBoxes| == 0 {
        s := Stopped;
      } else if |serviceBoxes| == |config.services| {
        s := Running;
      } else {
        s := Partial;
      }
    }

    method RegisterService(name: Name, id: BoxId)
      modifies this
      ensures serviceBoxes == After(old(serviceBoxes), Register(name, id)) == old(serviceBoxes)[name := id]
    {
      serviceBoxes := serviceBoxes[name := id];
    }

    method UnregisterService(name: Name)
      modifies this
      ensures serviceBoxes == After(old(serviceBoxes), Unregister(name)) == old(serviceBoxes) - {name}
    {
      serviceBoxes := serviceBoxes - {name};
    }

    method ShutdownOrder() returns (order: seq<Name>)
      ensures |order| == |serviceOrder|
      ensures forall i :: 0 <= i < |order| ==> order[i] == serviceOrder[|order| - 1 - i]
    {
      order := Reversed(serviceOrder);
    }
  }

  // ---------------------------------------------------------------- runs

  ghost predicate BootOrder(c: Config, order: seq<Name>) {
    && NoDuplicates(order) && DependenciesFirst(c, order)
    && forall n :: n in order <==> n in c.services
  }

  datatype Op = Register(name: Name, id: BoxId) | Unregister(name: Name)

  function After(boxes: map<Name, BoxId>, op: Op): map<Name, BoxId> {
    match op
    case Register(n, id) => boxes[n := id]
    case Unregister(n) => boxes - {n}
  }

  function StateOf(c: Config, boxes: map<Name, BoxId>): ProjectState {
    if |boxes| == 0 then Stopped else if |boxes| == |c.services| then Running else Partial
  }

  /** Every running service has all its dependencies running. */
  ghost predicate DependencyClosed(c: Config, running: set<Name>) {
    forall n, d :: n in running && Edge(c, n, d) ==> d in running
  }

  /** Step `k` of a run that boots the first `up` services of `order`, whatever stopped the boot
      there, and then stops every service in reverse. */
  function UpAndDown(order: seq<Name>, ids: seq<BoxId>, up: nat, k: nat): Op
    requires |ids| == |order| && up <= |order| && k < up + |order|
  {
    if k < up then Register(order[k], ids[k]) else Unregister(Reversed(order)[k - up])
  }

  /** What is registered after the first `k` steps. */
  function Registered(order: seq<Name>, ids: seq<BoxId>, up: nat, k: nat): map<Name, BoxId>
    requires |ids| == |order| && up <= |order| && k <= up + |order|
  {
    if k == 0 then map[] else After(Registered(order, ids, up, k - 1), UpAndDown(order, ids, up, k - 1))
  }

  /** How many of the leading services of the boot order run after `k` steps. */
  function Height(n: nat, up: nat, k: nat): (h: nat)
    requires up <= n && k <= up + n
    ensures h <= up
  {
    if k <= up then k else Min(up, n - (k - up))
  }

  ghost function Leading(order: seq<Name>, h: nat): set<Name>
    requires h <= |order|
  {
    set n | n in order[..h]
  }

  lemma LeadingGrows(order: seq<Name>, h: nat)
    requires NoDuplicates(order) && h < |order|
    ensures Leading(order, h + 1) == Leading(order, h) + {order[h]}
    ensures order[h] !in Leading(order, h)
  {
    assert order[..h + 1] == order[..h] + [order[h]];
  }

  /** Taking away a service that was never started changes nothing. */
  lemma LeadingWithout(order: seq<Name>, h: nat, i: nat)
    requires NoDuplicates(order) && h <= i < |order|
    ensures Leading(order, h) - {order[i]} == Leading(order, h)
  {}

  lemma {:induction false} RunningAfter(order: seq<Name>, ids: seq<BoxId>, up: nat, k: nat)
    requires NoDuplicates(order) && |ids| == |order| && up <= |order| && k <= up + |order|
    ensures Registered(order, ids, up, k).Keys == Leading(order, Height(|order|, up, k))
  {
    if k > 0 {
      RunningAfter(order, ids, up, k - 1);
      var i := up + |order| - k;
      if k <= up {
        LeadingGrows(order, k - 1);
      } else if i < up {
        LeadingGrows(order, i);
      } else {
        LeadingWithout(order, up, i);
      }
    }
  }

  /** Every running service is registered with the box that was started for it. */
  lemma {:induction false} BoxesAreTheirOwn(order: seq<Name>, ids: seq<BoxId>, up: nat, k: nat, i: nat)
    requires NoDuplicates(order) && |ids| == |order| && up <= |order| && k <= up + |order|
    requires i < |order| && order[i] in Registered(order, ids, up, k)
    ensures Registered(order, ids, up, k)[order[i]] == ids[i]
  {
    if k > 0 && (k > up || k - 1 != i) {
      BoxesAreTheirOwn(order, ids, up, k - 1, i);
    }
  }

  /** After every step of a boot, complete or not, and the shutdown that follows it, the running
      services are a leading segment of the boot order, so they are closed under dependency, and
      `state` tells the truth. */
  lemma EveryStepIsClosed(c: Config, order: seq<Name>, ids: seq<BoxId>, up: nat, k: nat)
    requires BootOrder(c, order) && |ids| == |order| && up <= |order| && k <= up + |order|
    ensures DependencyClosed(c, Registered(order, ids, up, k).Keys)
    ensures StateIsTrue(c, Registered(order, ids, up, k))
    ensures k == up + |order| ==> Registered(order, ids, up, k).Keys == {}
  {
    RunningAfter(order, ids, up, k);
    LeadingSegmentIsClosed(c, order, Height(|order|, up, k));
    StateIsExact(c, Registered(order, ids, up, k));
  }

  lemma LeadingSegmentIsClosed(c: Config, order: seq<Name>, h: nat)
    requires DependenciesFirst(c, order) && h <= |order|
    ensures DependencyClosed(c, Leading(order, h))
  {
    forall n, d | n in Leading(order, h) && Edge(c, n, d) ensures d in Leading(order, h) {
      var i :| 0 <= i < h && order[i] == n;
      assert d in order[..i];
      assert order[..i] <= order[..h];
    }
  }

  /** What the three states are documented to mean; a file without services is always Stopped. */
  ghost predicate StateIsTrue(c: Config, boxes: map<Name, BoxId>) {
    && (StateOf(c, boxes) == Stopped <==> boxes.Keys == {})
    && (StateOf(c, boxes) == Running <==> boxes.Keys == c.services.Keys && c.services.Keys != {})
  }

  /** Comparing lengths is right whenever only services of the file were registered. */
  lemma StateIsExact(c: Config, boxes: map<Name, BoxId>)
    requires boxes.Keys <= c.services.Keys
    ensures StateIsTrue(c, boxes)
  {
    if |boxes| == |c.services| {
      var missing := c.services.Keys - boxes.Keys;
      assert c.services.Keys == boxes.Keys + missing;
      assert |missing| == 0;
    }
  }

  /** Any registered names: Running is reported when strangers and missing services balance. */
  lemma ReportedRunning(c: Config, boxes: map<Name, BoxId>)
    ensures StateOf(c, boxes) == Running <==>
      boxes.Keys != {} && |boxes.Keys - c.services.Keys| == |c.services.Keys - boxes.Keys|
  {
    var both := boxes.Keys * c.services.Keys;
    assert boxes.Keys == both + (boxes.Keys - c.services.Keys);
    assert c.services.Keys == both + (c.services.Keys - boxes.Keys);
  }

  /** For any registered names, `state` is right if and only if no stranger is registered or the
      strangers do not number as many as the missing services. */
  lemma StrangersMislead(c: Config, boxes: map<Name, BoxId>)
    ensures StateIsTrue(c, boxes) <==>
      || boxes.Keys <= c.services.Keys
      || |boxes.Keys - c.services.Keys| != |c.services.Keys - boxes.Keys|
  {
    ReportedRunning(c, boxes);
    if boxes.Keys <= c.services.Keys {
      StateIsExact(c, boxes);
    }
  }

  /** Services a and b, of which b is not running, and a stranger z: reported as Running. */
  lemma MisledByOne() returns (c: Config, boxes: map<Name, BoxId>)
    ensures c.services.Keys == {"a", "b"} && boxes.Keys == {"a", "z"}
    ensures StateOf(c, boxes) == Running && !StateIsTrue(c, boxes)
  {
    var svc := Service(Some("image"), true, Empty);
    c := Config(map["a" := svc, "b" := svc]);
    boxes := map["a" := "1", "z" := "2"];
    assert "b" in c.services.Keys && "b" !in boxes.Keys;
  }
}
