/** Boot ordering of the services in a compose file (src/core/src/compose.rs).

    `ServiceOrder` is the three-colour depth-first search of the source.  The iteration order of
    a hash map is whatever the runtime likes, so every loop over map keys picks its next key
    with `:|`: what is proved here holds for every iteration order. */
module ComposeOrder {
  import opened Common

  type Name = string

  /** The `depends_on` field: absent, a list (possibly with repeats), or a map to conditions. */
  datatype DependsOn = Empty | List(names: seq<Name>) | Map(conditions: map<Name, string>) {

    ghost function Names(): set<Name> {
      match this
      case Empty => {}
      case List(v) => set n | n in v
      case Map(m) => m.Keys
    }

    /** The dependency names, in list order or in some order of the map's keys. */
    method Services() returns (deps: seq<Name>)
      ensures forall n :: n in deps <==> n in Names()
      ensures Empty? ==> deps == []
      ensures List? ==> deps == names
      ensures Map? ==> |deps| == |conditions| && forall n :: n in deps <==> n in conditions
    {
      match this
      case Empty => deps := [];
      case List(v) => deps := v;
      case Map(m) =>
        deps := [];
        var rest := m.Keys;
        while rest != {}
          invariant rest <= m.Keys
          invariant forall n :: n in deps <==> n in m.Keys - rest
          invariant |deps| + |rest| == |m|
        {
          var n :| n in rest;
          deps, rest := deps + [n], rest - {n};
        }
    }
  }

  /** The parts of a service that the boot order and its validation look at.  `portsValid` is
      the verdict of the port-mapping parser. */
  datatype Service = Service(image: Option<string>, portsValid: bool, dependsOn: DependsOn)

  datatype Config = Config(services: map<Name, Service>)

  // ---------------------------------------------------------------- the dependency graph

  /** `a` is a service that lists `b` in its `depends_on`. */
  ghost predicate Edge(c: Config, a: Name, b: Name) {
    a in c.services && b in c.services[a].dependsOn.Names()
  }

  ghost predicate IsPath(c: Config, p: seq<Name>) {
    forall i :: 0 <= i < |p| - 1 ==> Edge(c, p[i], p[i + 1])
  }

  /** A path of at least one edge that returns to `n`; a self-dependency is the shortest one. */
  ghost predicate IsCycle(c: Config, p: seq<Name>, n: Name) {
    |p| >= 2 && p[0] == n && p[|p| - 1] == n && IsPath(c, p)
  }

  ghost predicate OnCycle(c: Config, n: Name) {
    exists p :: IsCycle(c, p, n)
  }

  ghost predicate Acyclic(c: Config) {
    forall n :: !OnCycle(c, n)
  }

  ghost predicate AllDefined(c: Config) {
    forall a, b :: Edge(c, a, b) ==> b in c.services
  }

  /** Every dependency of every listed service stands strictly before it. */
  ghost predicate DependenciesFirst(c: Config, order: seq<Name>) {
    forall i, d :: 0 <= i < |order| && Edge(c, order[i], d) ==> d in order[..i]
  }

  // ---------------------------------------------------------------- the search

  datatype Mark = InProgress | Done

  datatype Error = Cycle(name: Name) | Undefined(name: Name, dep: Name)

  datatype Result<+T> = Ok(value: T) | Err(error: Error)

  /** What the search keeps between calls: the finished services are exactly those in `order`,
      which is already sorted, and the unfinished ones are exactly the call stack, which is a
      path of the graph. */
  ghost predicate SearchState(c: Config, marks: map<Name, Mark>, order: seq<Name>, stack: seq<Name>) {
    && marks.Keys <= c.services.Keys
    && (forall n :: n in order <==> n in marks && marks[n] == Done)
    && (forall n :: n in stack <==> n in marks && marks[n] == InProgress)
    && NoDuplicates(order)
    && DependenciesFirst(c, order)
    && IsPath(c, stack)
  }

  /** What an error claims about the file is true of the file. */
  ghost predicate Justified(c: Config, e: Error) {
    match e
    case Cycle(n) => OnCycle(c, n)
    case Undefined(n, d) => Edge(c, n, d) && d !in c.services
  }

  method TopoVisit(c: Config, name: Name, marks: map<Name, Mark>, order: seq<Name>, ghost stack: seq<Name>)
    returns (r: Result<()>, marks': map<Name, Mark>, order': seq<Name>)
    requires SearchState(c, marks, order, stack)
    requires name in c.services
    requires stack != [] ==> Edge(c, stack[|stack| - 1], name)
    ensures r.Err? ==> Justified(c, r.error)
    ensures r.Ok? ==> SearchState(c, marks', order', stack) && name in order'
    ensures r.Ok? ==> order <= order' && marks.Keys <= marks'.Keys
    decreases c.services.Keys - marks.Keys
  {
    if name in marks {
      marks', order' := marks, order;
      match marks[name] {
        case InProgress =>
          ClosingEdge(c, stack, name);
          r := Err(Cycle(name));
        case Done =>
          r := Ok(());
      }
      return;
    }

    marks', order' := marks[name := InProgress], order;
    ghost var inner := stack + [name];
    assert SearchState(c, marks', order', inner);

    var deps := c.services[name].dependsOn.Services();
    for k := 0 to |deps|
      invariant SearchState(c, marks', order', inner)
      invariant order <= order' && marks.Keys + {name} <= marks'.Keys
      invariant forall d :: d in deps[..k] ==> d in order'
    {
      assert Edge(c, name, deps[k]);
      if deps[k] !in c.services {
        return Err(Undefined(name, deps[k])), marks', order';
      }
      var visited;
      visited, marks', order' := TopoVisit(c, deps[k], marks', order', inner);
      if visited.Err? {
        return Err(visited.error), marks', order';
      }
    }

    FinishKeepsState(c, marks', order', stack, name);
    marks', order' := marks'[name := Done], order' + [name];
    r := Ok(());
  }

  /** For every iteration order of the services and of each `depends_on` map: the result is an
      error exactly when some dependency is undefined or the graph has a cycle, and otherwise a
      duplicate-free permutation of the services with every dependency first. */
  method ServiceOrder(c: Config) returns (r: Result<seq<Name>>)
    ensures r.Ok? <==> AllDefined(c) && Acyclic(c)
    ensures r.Ok? ==> NoDuplicates(r.value) && DependenciesFirst(c, r.value)
    ensures r.Ok? ==> forall n :: n in r.value <==> n in c.services
    ensures r.Err? ==> Justified(c, r.error)
  {
    var order: seq<Name> := [];
    var marks: map<Name, Mark> := map[];
    var rest := c.services.Keys;
    while rest != {}
      invariant rest <= c.services.Keys
      invariant SearchState(c, marks, order, [])
      invariant forall n :: n in c.services.Keys - rest ==> n in order
    {
      var name :| name in rest;
      if name !in marks {
        var visited;
        visited, marks, order := TopoVisit(c, name, marks, order, []);
        if visited.Err? {
          return Err(visited.error);
        }
      }
      rest := rest - {name};
    }
    SortedMeansAcyclic(c, order);
    r := Ok(order);
  }

  // ---------------------------------------------------------------- why it is right

  /** Meeting an in-progress service closes a cycle: the stack from there down leads back to it. */
  lemma ClosingEdge(c: Config, stack: seq<Name>, name: Name)
    requires name in stack && IsPath(c, stack)
    requires Edge(c, stack[|stack| - 1], name)
    ensures OnCycle(c, name)
  {
    var k :| 0 <= k < |stack| && stack[k] == name;
    var p := stack[k..] + [name];
    forall i | 0 <= i < |p| - 1 ensures Edge(c, p[i], p[i + 1]) {
      if i < |p| - 2 {
        assert Edge(c, stack[k + i], stack[k + i + 1]);
      }
    }
    assert IsCycle(c, p, name);
  }

  /** Appending a service whose dependencies are all listed keeps the order sorted, and takes
      the service off the stack. */
  lemma FinishKeepsState(c: Config, marks: map<Name, Mark>, order: seq<Name>, stack: seq<Name>, name: Name)
    requires SearchState(c, marks, order, stack + [name])
    requires name !in stack
    requires forall d :: Edge(c, name, d) ==> d in order
    ensures SearchState(c, marks[name := Done], order + [name], stack)
  {
    var all := order + [name];
    assert name in stack + [name];
    forall i, d | 0 <= i < |all| && Edge(c, all[i], d) ensures d in all[..i] {
      if i < |order| {
        assert all[..i] == order[..i];
      } else {
        assert all[..i] == order;
      }
    }
    forall n ensures n in stack <==> n in marks[name := Done] && marks[name := Done][n] == InProgress {
      assert n in stack + [name] <==> n in stack || n == name;
    }
    assert stack == (stack + [name])[..|stack|];
    forall i | 0 <= i < |stack| - 1 ensures Edge(c, stack[i], stack[i + 1]) {
      assert Edge(c, (stack + [name])[i], (stack + [name])[i + 1]);
    }
  }

  /** Following dependencies moves strictly to the left in a sorted order. */
  lemma {:induction false} PathMovesLeft(c: Config, order: seq<Name>, p: seq<Name>, i: nat) returns (j: nat)
    requires DependenciesFirst(c, order) && IsPath(c, p) && |p| >= 2
    requires i < |order| && order[i] == p[0]
    ensures j < i && order[j] == p[|p| - 1]
    decreases |p|
  {
    assert Edge(c, p[0], p[1]);
    j :| 0 <= j < i && order[j] == p[1];
    if |p| > 2 {
      var tail := p[1..];
      forall k | 0 <= k < |tail| - 1 ensures Edge(c, tail[k], tail[k + 1]) {
        assert Edge(c, p[k + 1], p[k + 2]);
      }
      j := PathMovesLeft(c, order, tail, j);
    }
  }

  lemma SortedMeansAcyclic(c: Config, order: seq<Name>)
    requires NoDuplicates(order) && DependenciesFirst(c, order)
    requires forall n :: n in order <==> n in c.services
    ensures AllDefined(c) && Acyclic(c)
  {
    forall a, b | Edge(c, a, b) ensures b in c.services {
      var i :| 0 <= i < |order| && order[i] == a;
      assert b in order[..i];
    }
    forall n, p | IsCycle(c, p, n) ensures false {
      assert Edge(c, p[0], p[1]);
      var i :| 0 <= i < |order| && order[i] == n;
      var j := PathMovesLeft(c, order, p, i);
    }
  }
}
