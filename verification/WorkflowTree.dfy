/** A workflow's node tree, the modules it imports, and one document-order listing of the steps in it.

    Every run-start guard walks the tree with its own switch over the node kinds; each is proved to see exactly
    the listing below. */
module WorkflowTree {

  datatype Option<T> = None | Some(value: T)

  datatype AgentStep = AgentStep(id: string, uses: string, continues: string, container: string, inputFiles: set<string>)

  /** `Plain` is any step without nested nodes and without an agent: code, signal, skip, react. */
  datatype Node =
    | Agent(step: AgentStep)
    | Call(callee: string)
    | Plain
    | If(thn: seq<Node>, els: seq<Node>)
    | Loop(loopBody: seq<Node>)
    | Try(attempt: seq<Node>, handler: seq<Node>, finish: seq<Node>)
    | Parallel(branches: seq<Node>)
    | Gate(generate: seq<Node>, evaluate: seq<Node>)
    | Map(mapBody: seq<Node>)
    | Compose(composeBody: seq<Node>)

  /** A nested node list, and whether it is a gate's evaluate block. */
  datatype Block = Block(nodes: seq<Node>, evaluates: bool)

  function Blocks(n: Node): seq<Block> {
    match n
    case Agent(_) => []
    case Call(_) => []
    case Plain => []
    case If(thn, els) => [Block(thn, false), Block(els, false)]
    case Loop(body) => [Block(body, false)]
    case Try(attempt, handler, finish) => [Block(attempt, false), Block(handler, false), Block(finish, false)]
    case Parallel(branches) => [Block(branches, false)]
    case Gate(generate, evaluate) => [Block(generate, false), Block(evaluate, true)]
    case Map(body) => [Block(body, false)]
    case Compose(body) => [Block(body, false)]
  }

  /** A step met on the way through the tree; `judging` says whether some gate's evaluate block encloses it. */
  datatype Visit = Visit(node: Node, judging: bool)

  /** The agent steps and calls of a node list in document order. */
  function Visits(nodes: seq<Node>, judging: bool): seq<Visit>
    decreases nodes, 1
  {
    if nodes == [] then [] else VisitsOf(nodes[0], judging) + Visits(nodes[1..], judging)
  }

  function VisitsOf(n: Node, judging: bool): seq<Visit>
    decreases n, 2
  {
    if n.Agent? || n.Call? then [Visit(n, judging)] else BlockVisits(n, 0, judging)
  }

  /** From block `k` of the node on. */
  function BlockVisits(n: Node, k: nat, judging: bool): seq<Visit>
    requires k <= |Blocks(n)|
    decreases n, 1, |Blocks(n)| - k
  {
    if k == |Blocks(n)| then []
    else
      var b := Blocks(n)[k];
      Visits(b.nodes, judging || b.evaluates) + BlockVisits(n, k + 1, judging)
  }

  lemma {:induction false} VisitsSnoc(nodes: seq<Node>, n: Node, judging: bool)
    ensures Visits(nodes + [n], judging) == Visits(nodes, judging) + VisitsOf(n, judging)
  {
    if nodes == [] {
      assert nodes + [n] == [n] && [n][1..] == [];
    } else {
      VisitsSnoc(nodes[1..], n, judging);
      assert (nodes + [n])[1..] == nodes[1..] + [n];
    }
  }

  /** What block `k` of a control node contributes. */
  function OwnVisits(n: Node, k: nat, judging: bool): seq<Visit>
    requires k < |Blocks(n)|
  {
    Visits(Blocks(n)[k].nodes, judging || Blocks(n)[k].evaluates)
  }

  /** A control node lists its blocks in order. */
  lemma VisitsOfBlocks(n: Node, judging: bool)
    requires !n.Agent? && !n.Call?
    ensures |Blocks(n)| == 0 ==> VisitsOf(n, judging) == []
    ensures |Blocks(n)| == 1 ==> VisitsOf(n, judging) == OwnVisits(n, 0, judging)
    ensures |Blocks(n)| == 2 ==> VisitsOf(n, judging) == OwnVisits(n, 0, judging) + OwnVisits(n, 1, judging)
    ensures |Blocks(n)| == 3 ==>
      VisitsOf(n, judging) == OwnVisits(n, 0, judging) + OwnVisits(n, 1, judging) + OwnVisits(n, 2, judging)
  {
    var last := |Blocks(n)|;
    assert BlockVisits(n, last, judging) == [];
    if last >= 1 {
      assert BlockVisits(n, last - 1, judging) == OwnVisits(n, last - 1, judging) + [];
    }
    if last >= 2 {
      assert BlockVisits(n, last - 2, judging) == OwnVisits(n, last - 2, judging) + BlockVisits(n, last - 1, judging);
    }
  }

  /** What each kind of control node contributes, branch by branch; only a gate's evaluate block starts judging. */
  lemma ControlNodesList(a: seq<Node>, b: seq<Node>, c: seq<Node>, judging: bool)
    ensures VisitsOf(If(a, b), judging) == Visits(a, judging) + Visits(b, judging)
    ensures VisitsOf(Loop(a), judging) == Visits(a, judging)
    ensures VisitsOf(Try(a, b, c), judging) == Visits(a, judging) + Visits(b, judging) + Visits(c, judging)
    ensures VisitsOf(Parallel(a), judging) == Visits(a, judging)
    ensures VisitsOf(Gate(a, b), judging) == Visits(a, judging) + Visits(b, true)
    ensures VisitsOf(Map(a), judging) == Visits(a, judging)
    ensures VisitsOf(Compose(a), judging) == Visits(a, judging)
  {
    VisitsOfBlocks(If(a, b), judging);
    VisitsOfBlocks(Loop(a), judging);
    VisitsOfBlocks(Try(a, b, c), judging);
    VisitsOfBlocks(Parallel(a), judging);
    VisitsOfBlocks(Gate(a, b), judging);
    VisitsOfBlocks(Map(a), judging);
    VisitsOfBlocks(Compose(a), judging);
    hide Visits, VisitsOf;
  }

  // ---------------------------------------------------------------------------------------------
  // The listing is complete and exact

  /** A place in the tree: node `i` of this list, or a place inside block `k` of node `i`. */
  datatype Position = Here(i: nat) | Inside(i: nat, k: nat, rest: Position)

  /** What stands at a place. */
  ghost function At(nodes: seq<Node>, judging: bool, p: Position): Option<Visit>
    decreases p
  {
    match p
    case Here(i) => if i < |nodes| then Some(Visit(nodes[i], judging)) else None
    case Inside(i, k, rest) =>
      if i < |nodes| && k < |Blocks(nodes[i])| then
        var b := Blocks(nodes[i])[k];
        At(b.nodes, judging || b.evaluates, rest)
      else None
  }

  lemma {:induction false} ListedAtNode(nodes: seq<Node>, judging: bool, i: nat, v: Visit)
    requires i < |nodes| && v in VisitsOf(nodes[i], judging)
    ensures v in Visits(nodes, judging)
  {
    if i > 0 {
      ListedAtNode(nodes[1..], judging, i - 1, v);
    }
  }

  lemma {:induction false} ListedInBlock(n: Node, from: nat, k: nat, judging: bool, v: Visit)
    requires from <= k < |Blocks(n)| && v in Visits(Blocks(n)[k].nodes, judging || Blocks(n)[k].evaluates)
    ensures v in BlockVisits(n, from, judging)
    decreases k - from
  {
    if from < k {
      ListedInBlock(n, from + 1, k, judging, v);
    }
  }

  lemma {:induction false} PlaceIsListed(nodes: seq<Node>, judging: bool, p: Position, v: Visit)
    requires At(nodes, judging, p) == Some(v) && (v.node.Agent? || v.node.Call?)
    ensures v in Visits(nodes, judging)
    decreases p
  {
    match p
    case Here(i) =>
      ListedAtNode(nodes, judging, i, v);
    case Inside(i, k, rest) =>
      var b := Blocks(nodes[i])[k];
      PlaceIsListed(b.nodes, judging || b.evaluates, rest, v);
      ListedInBlock(nodes[i], 0, k, judging, v);
      ListedAtNode(nodes, judging, i, v);
  }

  lemma {:induction false} ListedHasPlace(nodes: seq<Node>, judging: bool, v: Visit) returns (p: Position)
    requires v in Visits(nodes, judging)
    ensures At(nodes, judging, p) == Some(v)
    decreases nodes, 1
  {
    var n := nodes[0];
    if v in VisitsOf(n, judging) {
      if n.Agent? || n.Call? {
        p := Here(0);
      } else {
        var k, rest := BlockHasPlace(n, 0, judging, v);
        p := Inside(0, k, rest);
      }
    } else {
      var q := ListedHasPlace(nodes[1..], judging, v);
      p := if q.Here? then Here(q.i + 1) else Inside(q.i + 1, q.k, q.rest);
    }
  }

  lemma {:induction false} BlockHasPlace(n: Node, from: nat, judging: bool, v: Visit) returns (k: nat, rest: Position)
    requires from <= |Blocks(n)| && v in BlockVisits(n, from, judging)
    ensures k < |Blocks(n)| && At(Blocks(n)[k].nodes, judging || Blocks(n)[k].evaluates, rest) == Some(v)
    decreases n, 1, |Blocks(n)| - from
  {
    var b := Blocks(n)[from];
    if v in Visits(b.nodes, judging || b.evaluates) {
      k := from;
      rest := ListedHasPlace(b.nodes, judging || b.evaluates, v);
    } else {
      k, rest := BlockHasPlace(n, from + 1, judging, v);
    }
  }

  /** The listing holds exactly the agent steps and calls that stand somewhere in the tree, each with its context. */
  lemma VisitsAreExactlyThePlaces(nodes: seq<Node>, judging: bool, v: Visit)
    requires v.node.Agent? || v.node.Call?
    ensures v in Visits(nodes, judging) <==> exists p :: At(nodes, judging, p) == Some(v)
  {
    if v in Visits(nodes, judging) {
      var p := ListedHasPlace(nodes, judging, v);
    } else if exists p :: At(nodes, judging, p) == Some(v) {
      var p :| At(nodes, judging, p) == Some(v);
      PlaceIsListed(nodes, judging, p, v);
    }
  }

  // ---------------------------------------------------------------------------------------------
  // Modules and adapters

  /** What the guards ask of an adapter. `credentials` is None for an adapter that names no credential variables. */
  datatype Capabilities = Capabilities(
    persistentSession: bool, threaded: bool, contextEvidence: bool, inlineInputFiles: bool, credentials: Option<seq<string>>)

  /** A runtime reference: a role is qualified by its module unless that is the root. */
  datatype Ref = Bare(uses: string) | Role(moduleId: string, role: string)

  type Resolver = map<Ref, Capabilities>

  datatype Module = Module(id: string, graph: seq<Node>, roles: set<string>)

  datatype Edge = Edge(parentId: string, importId: string, childId: string)

  /** The modules in the order in which they are walked (root first, then by id), and the import edges. */
  datatype Definition = Definition(modules: seq<Module>, edges: seq<Edge>)

  function RuntimeRef(m: Module, uses: string): Ref {
    if uses in m.roles && m.id != "" then Role(m.id, uses) else Bare(uses)
  }

  /** A use keeps its bare name in the root module, and wherever it is not a role of its module. */
  ghost predicate KeepsName(m: Module, uses: string) {
    m.id == "" || uses !in m.roles
  }

  /** Two uses share an adapter reference exactly when they have the same name and either both keep it bare or both are
      roles of one and the same imported module. */
  lemma SharedRefIff(m: Module, uses: string, m': Module, uses': string)
    ensures RuntimeRef(m, uses) == RuntimeRef(m', uses') <==>
      uses == uses' && ((KeepsName(m, uses) && KeepsName(m', uses')) || (!KeepsName(m, uses) && !KeepsName(m', uses') && m.id == m'.id))
  {
  }

  // ---------------------------------------------------------------------------------------------
  // The text of a reference

  function Digits(n: nat): (d: string)
    ensures d != "" && ':' !in d
  {
    if n < 10 then [('0' as int + n) as char] else Digits(n / 10) + [('0' as int + n % 10) as char]
  }

  /** References are strings: a role carries the length of its module's id, then the id, then its own name. */
  function RefText(ref: Ref): string {
    match ref
    case Bare(uses) => uses
    case Role(moduleId, role) => "awf:role:" + (Digits(|moduleId|) + ":" + (moduleId + ":" + role))
  }

  lemma {:induction false} DigitsDiffer(m: nat, n: nat)
    requires Digits(m) == Digits(n)
    ensures m == n
  {
    var a, b := Digits(m), Digits(n);
    if m >= 10 && n >= 10 {
      assert a[..|a| - 1] == Digits(m / 10) && b[..|b| - 1] == Digits(n / 10);
      DigitsDiffer(m / 10, n / 10);
      assert a[|a| - 1] == b[|b| - 1];
      assert m % 10 == n % 10;
    } else {
      assert a[0] == b[0];
    }
  }

  /** What stands before the first colon. */
  lemma FirstColon(a: string, x: string, b: string, y: string)
    requires ':' !in a && ':' !in b && a + ":" + x == b + ":" + y
    ensures a == b && x == y
  {
    ColonNotEarlier(a, x, b, y);
    ColonNotEarlier(b, y, a, x);
    var s, t := a + ":" + x, b + ":" + y;
    assert a == s[..|a|] && b == t[..|b|];
    assert x == s[|a| + 1..] && y == t[|b| + 1..];
  }

  lemma ColonNotEarlier(a: string, x: string, b: string, y: string)
    requires ':' !in b && a + ":" + x == b + ":" + y
    ensures |b| <= |a|
  {
    assert (a + ":" + x)[|a|] == ':';
  }

  /** The length in front makes the text of a role unambiguous, whatever colons the id and the name hold. */
  lemma RoleTextsDiffer(a: string, u: string, b: string, v: string)
    requires RefText(Role(a, u)) == RefText(Role(b, v))
    ensures a == b && u == v
  {
    var prefix := "awf:role:";
    var s, t := Digits(|a|) + ":" + (a + ":" + u), Digits(|b|) + ":" + (b + ":" + v);
    assert (prefix + s)[|prefix|..] == s && (prefix + t)[|prefix|..] == t;
    FirstColon(Digits(|a|), a + ":" + u, Digits(|b|), b + ":" + v);
    DigitsDiffer(|a|, |b|);
    assert a == (a + ":" + u)[..|a|] && b == (b + ":" + v)[..|b|];
    assert u == (a + ":" + u)[|a| + 1..] && v == (b + ":" + v)[|b| + 1..];
  }

  /** So texts tell references apart exactly as long as no bare name imitates the text of a role. */
  lemma RefTextsDifferIff(r: Ref, q: Ref)
    requires r != q
    ensures RefText(r) != RefText(q) <==>
      !(r.Bare? && q.Role? && r.uses == RefText(q)) && !(q.Bare? && r.Role? && q.uses == RefText(r))
  {
    if r.Role? && q.Role? && RefText(r) == RefText(q) {
      RoleTextsDiffer(r.moduleId, r.role, q.moduleId, q.role);
    }
  }
}
