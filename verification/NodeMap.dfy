/** The node map (debug/map.go, debug/node.go, debug/parse.go): all simple paths of the node graph, depth first. */
module NodeMaps {
  import opened Common
  import opened Codec
  import opened CodecProofs
  import opened States
  import opened Navigation
  import opened Resources

  type Path = seq<Bytes>

  const SLASH: byte := 47

  // ----- the node graph -----

  /** The targets `<`, `>`, `^`, `_` and `.` lead to no node of their own. */
  predicate Relative(sym: Bytes) {
    sym == PREVIOUS || sym == NEXT || sym == TOP || sym == UP || sym == SAME
  }

  /** The node an instruction leads to. */
  function TargetOf(i: Instr): Option<Bytes> {
    if (i.Move? || i.InCmp? || i.Catch?) && !Relative(i.sym) then Some(i.sym) else None
  }

  function Connected(conn: Path, sym: Bytes): Path {
    if sym in conn then conn else conn + [sym]
  }

  /** The connections after some instructions: each target once, in the order of first mention. */
  function Edges(conn: Path, calls: seq<Instr>): Path
    decreases |calls|
  {
    if calls == [] then conn
    else
      var t := TargetOf(calls[0]);
      Edges(if t.Some? then Connected(conn, t.value) else conn, calls[1..])
  }

  /** The nodes that `code` leads to. */
  function EdgesOf(code: Bytes): Path {
    Edges([], Decode(code).calls)
  }

  predicate NoRepeats(p: Path) {
    forall i, j :: 0 <= i < j < |p| ==> p[i] != p[j]
  }

  /** MOVE, INCMP and CATCH go to the node they name; the targets `<`, `>`, `^`, `_` and `.` name none. */
  predicate GoesTo(i: Instr, s: Bytes) {
    s !in {[60], [62], [94], [95], [46]} &&
    match i
    case Move(target) => target == s
    case InCmp(target, _) => target == s
    case Catch(target, _, _) => target == s
    case _ => false
  }

  predicate Mentions(calls: seq<Instr>, s: Bytes) {
    exists i :: 0 <= i < |calls| && GoesTo(calls[i], s)
  }

  /** Some instruction goes to `a` before any has gone to `b`. */
  predicate MentionedFirst(calls: seq<Instr>, a: Bytes, b: Bytes) {
    exists i :: 0 <= i < |calls| && GoesTo(calls[i], a) && forall j :: 0 <= j <= i ==> !GoesTo(calls[j], b)
  }

  lemma TargetIs(i: Instr, s: Bytes)
    ensures GoesTo(i, s) <==> TargetOf(i) == Some(s)
  {
  }

  lemma MentionsMore(calls: seq<Instr>, s: Bytes)
    requires calls != []
    ensures Mentions(calls, s) <==> GoesTo(calls[0], s) || Mentions(calls[1..], s)
  {
    if Mentions(calls[1..], s) {
      var i :| 0 <= i < |calls| - 1 && GoesTo(calls[1..][i], s);
      assert GoesTo(calls[i + 1], s);
    }
    if Mentions(calls, s) && !GoesTo(calls[0], s) {
      var i :| 0 <= i < |calls| && GoesTo(calls[i], s);
      assert GoesTo(calls[1..][i - 1], s);
    }
  }

  lemma FirstMore(calls: seq<Instr>, a: Bytes, b: Bytes)
    requires calls != [] && !GoesTo(calls[0], b)
    ensures GoesTo(calls[0], a) || MentionedFirst(calls[1..], a, b) ==> MentionedFirst(calls, a, b)
  {
    hide GoesTo;
    if !GoesTo(calls[0], a) && MentionedFirst(calls[1..], a, b) {
      var i :| 0 <= i < |calls| - 1 && GoesTo(calls[1..][i], a) && forall j :: 0 <= j <= i ==> !GoesTo(calls[1..][j], b);
      assert GoesTo(calls[i + 1], a);
      forall j | 0 <= j <= i + 1 ensures !GoesTo(calls[j], b) {
        if j > 0 {
          assert !GoesTo(calls[1..][j - 1], b);
        }
      }
    }
  }

  /** The connections of a node: those it had, and behind them what its instructions mention, once, by first mention. */
  lemma {:induction false} EdgesAre(conn: Path, calls: seq<Instr>)
    requires NoRepeats(conn)
    ensures var r := Edges(conn, calls);
      && NoRepeats(r) && conn <= r
      && (forall s :: s in r <==> s in conn || Mentions(calls, s))
      && (forall i, j :: |conn| <= i < j < |r| ==> MentionedFirst(calls, r[i], r[j]))
    decreases |calls|
  {
    hide GoesTo, TargetOf, MentionedFirst, Mentions;
    if calls != [] {
      var t := TargetOf(calls[0]);
      var conn' := if t.Some? then Connected(conn, t.value) else conn;
      EdgesAre(conn', calls[1..]);
      var r := Edges(conn, calls);
      forall s ensures s in r <==> s in conn || Mentions(calls, s) {
        TargetIs(calls[0], s);
        MentionsMore(calls, s);
      }
      forall i, j | |conn| <= i < j < |r| ensures MentionedFirst(calls, r[i], r[j]) {
        TargetIs(calls[0], r[i]);
        TargetIs(calls[0], r[j]);
        assert r[j] !in conn' ==> t != Some(r[j]);
        FirstMore(calls, r[i], r[j]);
      }
    } else {
      NothingMentioned();
    }
  }

  lemma NothingMentioned()
    ensures forall s :: !Mentions([], s)
  {
  }

  /** The edges of a node's code: what it mentions, once, by first mention. */
  lemma EdgesOfCode(code: Bytes)
    ensures var r, calls := EdgesOf(code), Decode(code).calls;
      && NoRepeats(r) && (forall s :: s in r <==> Mentions(calls, s))
      && (forall i, j :: 0 <= i < j < |r| ==> MentionedFirst(calls, r[i], r[j]))
  {
    hide Decode, MentionedFirst, Mentions;
    EdgesAre([], Decode(code).calls);
  }

  // ----- the traversal, on values -----

  datatype WalkEnd = Fine | BadProgram | WalkPanic

  /** The paths a traversal adds, in order, how it ends, and the stack it leaves. */
  datatype Walk = Walk(outs: seq<Path>, end: WalkEnd, stack: Path)

  /** What processNode does on a node with connections `conn`, from the stack `path`. */
  function WalkNode(rs: Resource, path: Path, name: Bytes, conn: Path): Walk
    decreases MAX_LEVEL + 1 - |path|, 0, 0
  {
    if name in path then Walk([], Fine, path)
    else if |path| > MAX_LEVEL then Walk([], WalkPanic, path)
    else
      var w := WalkAll(rs, path + [name], conn);
      if w.end != Fine then w else Walk(w.outs + [path + [name]], Fine, path)
  }

  /** The loop over the connections that are left. A node without code is passed over. */
  function WalkAll(rs: Resource, path: Path, conn: Path): Walk
    decreases MAX_LEVEL + 1 - |path|, 1, |conn|
  {
    if conn == [] then Walk([], Fine, path)
    else
      var code := rs.code(conn[0]);
      if code.None? then WalkAll(rs, path, conn[1..])
      else
        match Decode(code.value).end
        case BadOpcode => Walk([], BadProgram, path)
        case Crashed => Walk([], WalkPanic, path)
        case Finished =>
          var w := WalkNode(rs, path, conn[0], EdgesOf(code.value));
          if w.end != Fine then w
          else
            var rest := WalkAll(rs, path, conn[1..]);
            Walk(w.outs + rest.outs, rest.end, rest.stack)
  }

  /** What Run does on a new map. */
  function WalkRoot(rs: Resource, root: Bytes): Walk {
    var code := rs.code(root);
    if code.None? || Decode(code.value).end == BadOpcode then Walk([], BadProgram, [])
    else if Decode(code.value).end == Crashed then Walk([], WalkPanic, [])
    else WalkNode(rs, [], root, EdgesOf(code.value))
  }

  // ----- simple paths -----

  /** Both nodes have code, and an instruction of node `a` goes to node `b`. */
  predicate LeadsTo(rs: Resource, a: Bytes, b: Bytes) {
    rs.code(a).Some? && rs.code(b).Some? && Mentions(Decode(rs.code(a).value).calls, b)
  }

  lemma LeadsToIff(rs: Resource, a: Bytes)
    requires rs.code(a).Some?
    ensures forall b :: LeadsTo(rs, a, b) <==> b in EdgesOf(rs.code(a).value) && rs.code(b).Some?
  {
    hide Mentions, Decode;
    EdgesOfCode(rs.code(a).value);
  }

  predicate Linked(rs: Resource, p: Path) {
    forall k :: 0 < k < |p| ==> LeadsTo(rs, p[k - 1], p[k])
  }

  /** A path from the root along edges that visits no node twice. */
  predicate SimplePath(rs: Resource, root: Bytes, p: Path) {
    p != [] && p[0] == root && rs.code(root).Some? && NoRepeats(p) && Linked(rs, p)
  }

  /** Depth-first post-order: a path comes after its extensions, and branches come in the order of first mention. */
  predicate Before(rs: Resource, p: Path, q: Path) {
    q < p || exists k :: 0 < k < |p| && Diverge(rs, p, q, k)
  }

  predicate Diverge(rs: Resource, p: Path, q: Path, k: nat)
    requires 0 < k < |p|
  {
    && k < |q| && p[..k] == q[..k] && rs.code(p[k - 1]).Some?
    && MentionedFirst(Decode(rs.code(p[k - 1]).value).calls, p[k], q[k])
  }

  predicate PostOrder(rs: Resource, outs: seq<Path>) {
    forall i, j :: 0 <= i < j < |outs| ==> Before(rs, outs[i], outs[j])
  }

  /** `p` starts with `path` and goes on. */
  predicate Extends(p: Path, path: Path) {
    |path| < |p| && p[..|path|] == path
  }

  // ----- every path is simple -----

  lemma LinkedMore(rs: Resource, path: Path, name: Bytes)
    requires NoRepeats(path) && Linked(rs, path) && name !in path
    requires path != [] ==> LeadsTo(rs, path[|path| - 1], name)
    ensures NoRepeats(path + [name]) && Linked(rs, path + [name])
  {
    var p := path + [name];
    forall k | 0 < k < |p| ensures LeadsTo(rs, p[k - 1], p[k]) {
      if k < |path| {
        assert LeadsTo(rs, path[k - 1], path[k]);
      }
    }
  }

  /** `p` is a simple path through `path` and beyond, that the rest of a traversal may add. */
  predicate Found(rs: Resource, path: Path, p: Path) {
    Extends(p, path) && NoRepeats(p) && Linked(rs, p)
  }

  lemma FoundDeeper(rs: Resource, path: Path, name: Bytes, p: Path)
    requires Found(rs, path + [name], p)
    ensures Found(rs, path, p) && p[|path|] == name
  {
    assert p[..|path| + 1][..|path|] == p[..|path|];
    assert (path + [name])[..|path|] == path;
    assert p[..|path| + 1][|path|] == name;
  }

  /** What the traversal adds below `path`: simple paths, through one of the connections. */
  lemma {:induction false} AllSound(rs: Resource, path: Path, conn: Path)
    requires path != [] && NoRepeats(path) && Linked(rs, path)
    requires forall c :: c in conn && rs.code(c).Some? ==> LeadsTo(rs, path[|path| - 1], c)
    ensures forall p :: p in WalkAll(rs, path, conn).outs ==> Found(rs, path, p) && p[|path|] in conn
    decreases MAX_LEVEL + 1 - |path|, 1, |conn|
  {
    if conn != [] {
      var code := rs.code(conn[0]);
      AllSound(rs, path, conn[1..]);
      if code.Some? && Decode(code.value).end == Finished {
        NodeSound(rs, path, conn[0], EdgesOf(code.value));
      }
    }
  }

  lemma {:induction false} NodeSound(rs: Resource, path: Path, name: Bytes, conn: Path)
    requires NoRepeats(path) && Linked(rs, path) && rs.code(name).Some? && conn == EdgesOf(rs.code(name).value)
    requires path != [] ==> LeadsTo(rs, path[|path| - 1], name)
    ensures forall p :: p in WalkNode(rs, path, name, conn).outs ==> Found(rs, path, p) && p[|path|] == name
    decreases MAX_LEVEL + 1 - |path|, 0, 0
  {
    if name !in path && |path| <= MAX_LEVEL {
      var here := path + [name];
      LinkedMore(rs, path, name);
      LeadsToIff(rs, name);
      AllSound(rs, here, conn);
      forall p | p in WalkAll(rs, here, conn).outs ensures Found(rs, path, p) && p[|path|] == name {
        FoundDeeper(rs, path, name, p);
      }
      assert Found(rs, path, here) by {
        assert here[..|path|] == path;
      }
    }
  }

  // ----- every simple path is found -----

  lemma {:induction false} AllComplete(rs: Resource, path: Path, conn: Path, p: Path)
    requires path != [] && Found(rs, path, p) && p[|path|] in conn
    requires WalkAll(rs, path, conn).end == Fine
    ensures p in WalkAll(rs, path, conn).outs
    decreases MAX_LEVEL + 1 - |path|, 1, |conn|
  {
    var k := |path|;
    assert LeadsTo(rs, p[k - 1], p[k]);
    if p[k] == conn[0] {
      NodeComplete(rs, path, conn[0], EdgesOf(rs.code(conn[0]).value), p);
    } else {
      AllComplete(rs, path, conn[1..], p);
    }
  }

  lemma {:induction false} NodeComplete(rs: Resource, path: Path, name: Bytes, conn: Path, p: Path)
    requires Found(rs, path, p) && p[|path|] == name
    requires rs.code(name).Some? && conn == EdgesOf(rs.code(name).value)
    requires WalkNode(rs, path, name, conn).end == Fine
    ensures p in WalkNode(rs, path, name, conn).outs
    decreases MAX_LEVEL + 1 - |path|, 0, 0
  {
    var k, here := |path|, path + [name];
    forall i | 0 <= i < k ensures path[i] != name {
      assert p[..k][i] == p[i];
    }
    assert p[..k + 1] == here;
    if |p| == k + 1 {
      assert p == here;
    } else {
      assert LeadsTo(rs, p[k], p[k + 1]);
      LeadsToIff(rs, name);
      AllComplete(rs, here, conn, p);
    }
  }

  // ----- the order -----

  lemma OrdersJoin(rs: Resource, a: seq<Path>, b: seq<Path>)
    requires PostOrder(rs, a) && PostOrder(rs, b)
    requires forall p, q :: p in a && q in b ==> Before(rs, p, q)
    ensures PostOrder(rs, a + b)
  {
    hide Before;
    var outs := a + b;
    forall i, j | 0 <= i < j < |outs| ensures Before(rs, outs[i], outs[j]) {
      if i < |a| <= j {
        assert outs[i] in a && outs[j] in b;
      }
    }
  }

  /** The connections that are left are in the order of the edges. */
  predicate InEdgeOrder(rs: Resource, node: Bytes, conn: Path) {
    rs.code(node).Some? &&
    forall i, j :: 0 <= i < j < |conn| ==> MentionedFirst(Decode(rs.code(node).value).calls, conn[i], conn[j])
  }

  lemma EdgesInOrder(rs: Resource, node: Bytes)
    requires rs.code(node).Some?
    ensures InEdgeOrder(rs, node, EdgesOf(rs.code(node).value))
  {
    hide MentionedFirst, Decode;
    EdgesOfCode(rs.code(node).value);
  }

  lemma {:induction false} AllOrdered(rs: Resource, path: Path, conn: Path)
    requires path != [] && NoRepeats(path) && Linked(rs, path) && InEdgeOrder(rs, path[|path| - 1], conn)
    requires forall c :: c in conn && rs.code(c).Some? ==> LeadsTo(rs, path[|path| - 1], c)
    ensures PostOrder(rs, WalkAll(rs, path, conn).outs)
    decreases MAX_LEVEL + 1 - |path|, 1, |conn|
  {
    if conn != [] {
      var code := rs.code(conn[0]);
      var rest := WalkAll(rs, path, conn[1..]).outs;
      AllOrdered(rs, path, conn[1..]);
      AllSound(rs, path, conn[1..]);
      if code.Some? && Decode(code.value).end == Finished {
        var first := WalkNode(rs, path, conn[0], EdgesOf(code.value)).outs;
        NodeOrdered(rs, path, conn[0], EdgesOf(code.value));
        NodeSound(rs, path, conn[0], EdgesOf(code.value));
        forall p, q | p in first && q in rest ensures Before(rs, p, q) {
          var j :| 0 <= j < |conn[1..]| && conn[1..][j] == q[|path|];
          assert conn[j + 1] == q[|path|];
          assert Diverge(rs, p, q, |path|);
        }
        OrdersJoin(rs, first, rest);
      }
    }
  }

  lemma {:induction false} NodeOrdered(rs: Resource, path: Path, name: Bytes, conn: Path)
    requires NoRepeats(path) && Linked(rs, path) && rs.code(name).Some? && conn == EdgesOf(rs.code(name).value)
    requires path != [] ==> LeadsTo(rs, path[|path| - 1], name)
    ensures PostOrder(rs, WalkNode(rs, path, name, conn).outs)
    decreases MAX_LEVEL + 1 - |path|, 0, 0
  {
    if name !in path && |path| <= MAX_LEVEL {
      var here := path + [name];
      var outs := WalkAll(rs, here, conn).outs;
      LinkedMore(rs, path, name);
      EdgesInOrder(rs, name);
      LeadsToIff(rs, name);
      AllOrdered(rs, here, conn);
      AllSound(rs, here, conn);
      forall p, q | p in outs && q in [here] ensures Before(rs, p, q) {
        assert Found(rs, here, p);
      }
      OrdersJoin(rs, outs, [here]);
    }
  }

  /** In post-order no path comes twice. */
  lemma OrderedOnce(rs: Resource, outs: seq<Path>)
    requires PostOrder(rs, outs)
    ensures forall i, j :: 0 <= i < j < |outs| ==> outs[i] != outs[j]
  {
    hide Before;
    forall i, j | 0 <= i < j < |outs| ensures outs[i] != outs[j] {
      NotBeforeItself(rs, outs[i]);
    }
  }

  lemma NotBeforeItself(rs: Resource, p: Path)
    ensures !Before(rs, p, p)
  {
    forall k | 0 < k < |p| ensures !Diverge(rs, p, p, k) {
      hide Decode, GoesTo;
    }
  }

  // ----- when a traversal ends well -----

  predicate Parses(rs: Resource, name: Bytes) {
    rs.code(name).Some? && Decode(rs.code(name).value).end == Finished
  }

  /** A path the stack has room for, to a node whose code decodes. */
  predicate Manageable(rs: Resource, p: Path) {
    p != [] && |p| <= 129 && Parses(rs, p[|p| - 1])
  }

  lemma {:induction false} AllManageable(rs: Resource, path: Path, conn: Path)
    requires WalkAll(rs, path, conn).end == Fine
    ensures forall p :: p in WalkAll(rs, path, conn).outs ==> Manageable(rs, p)
    decreases MAX_LEVEL + 1 - |path|, 1, |conn|
  {
    if conn != [] {
      var code := rs.code(conn[0]);
      AllManageable(rs, path, conn[1..]);
      if code.Some? {
        NodeManageable(rs, path, conn[0], EdgesOf(code.value));
      }
    }
  }

  lemma {:induction false} NodeManageable(rs: Resource, path: Path, name: Bytes, conn: Path)
    requires WalkNode(rs, path, name, conn).end == Fine && Parses(rs, name)
    ensures forall p :: p in WalkNode(rs, path, name, conn).outs ==> Manageable(rs, p)
    decreases MAX_LEVEL + 1 - |path|, 0, 0
  {
    if name !in path {
      AllManageable(rs, path + [name], conn);
    }
  }

  lemma {:induction false} AllFine(rs: Resource, path: Path, conn: Path)
    requires path != [] && NoRepeats(path) && Linked(rs, path) && forall b :: b in path ==> Parses(rs, b)
    requires forall c :: c in conn && rs.code(c).Some? ==> LeadsTo(rs, path[|path| - 1], c)
    requires forall p :: Found(rs, path, p) ==> Manageable(rs, p)
    ensures WalkAll(rs, path, conn).end == Fine
    decreases MAX_LEVEL + 1 - |path|, 1, |conn|
  {
    if conn != [] {
      var c := conn[0];
      AllFine(rs, path, conn[1..]);
      if rs.code(c).Some? {
        if c !in path {
          LinkedMore(rs, path, c);
          assert (path + [c])[..|path|] == path;
          assert Found(rs, path, path + [c]);
        }
        NodeFine(rs, path, c, EdgesOf(rs.code(c).value));
      }
    }
  }

  lemma {:induction false} NodeFine(rs: Resource, path: Path, name: Bytes, conn: Path)
    requires NoRepeats(path) && Linked(rs, path) && forall b :: b in path ==> Parses(rs, b)
    requires Parses(rs, name) && conn == EdgesOf(rs.code(name).value)
    requires path != [] ==> LeadsTo(rs, path[|path| - 1], name)
    requires forall p :: Found(rs, path, p) && p[|path|] == name ==> Manageable(rs, p)
    ensures WalkNode(rs, path, name, conn).end == Fine
    decreases MAX_LEVEL + 1 - |path|, 0, 0
  {
    if name !in path {
      var here := path + [name];
      LinkedMore(rs, path, name);
      assert here[..|path|] == path;
      assert Found(rs, path, here);
      forall p | Found(rs, here, p) ensures Manageable(rs, p) {
        FoundDeeper(rs, path, name, p);
      }
      LeadsToIff(rs, name);
      AllFine(rs, here, conn);
    }
  }

  // ----- the whole map -----

  lemma SimpleIsFound(rs: Resource, root: Bytes, p: Path)
    requires rs.code(root).Some?
    ensures SimplePath(rs, root, p) <==> Found(rs, [], p) && p[0] == root
  {
  }

  /**
   A run that ends well has found every simple path from the root through nodes with code exactly once, in
   depth-first post-order, and leaves the stack empty.
   */
  lemma EnumeratesSimplePaths(rs: Resource, root: Bytes)
    requires WalkRoot(rs, root).end == Fine
    ensures var w := WalkRoot(rs, root);
      && (forall p :: p in w.outs <==> SimplePath(rs, root, p))
      && (forall i, j :: 0 <= i < j < |w.outs| ==> w.outs[i] != w.outs[j])
      && PostOrder(rs, w.outs)
      && w.stack == []
  {
    var w, conn := WalkRoot(rs, root), EdgesOf(rs.code(root).value);
    NodeSound(rs, [], root, conn);
    NodeOrdered(rs, [], root, conn);
    OrderedOnce(rs, w.outs);
    forall p ensures p in w.outs <==> SimplePath(rs, root, p) {
      SimpleIsFound(rs, root, p);
      if SimplePath(rs, root, p) {
        NodeComplete(rs, [], root, conn, p);
      }
    }
    hide PostOrder;
    StackRestored(rs, [], root, conn);
  }

  lemma StackRestored(rs: Resource, path: Path, name: Bytes, conn: Path)
    ensures WalkNode(rs, path, name, conn).end == Fine ==> WalkNode(rs, path, name, conn).stack == path
  {
  }

  /**
   A run ends well if and only if the root has code that decodes, no simple path is longer than the stack
   allows, and every simple path ends in a node whose code decodes.
   */
  lemma EndsWellIff(rs: Resource, root: Bytes)
    ensures WalkRoot(rs, root).end == Fine <==> Parses(rs, root) && forall p :: SimplePath(rs, root, p) ==> Manageable(rs, p)
  {
    if WalkRoot(rs, root).end == Fine {
      EnumeratesSimplePaths(rs, root);
      NodeManageable(rs, [], root, EdgesOf(rs.code(root).value));
    } else if Parses(rs, root) && forall p :: SimplePath(rs, root, p) ==> Manageable(rs, p) {
      forall p | Found(rs, [], p) && p[0] == root ensures Manageable(rs, p) {
        SimpleIsFound(rs, root, p);
      }
      NodeFine(rs, [], root, EdgesOf(rs.code(root).value));
    }
  }

  /** The nodes of a finite map: closed under the edges, each with code that decodes. */
  ghost predicate NodesOf(rs: Resource, root: Bytes, nodes: set<Bytes>) {
    && root in nodes
    && (forall a :: a in nodes ==> Parses(rs, a))
    && (forall a, b :: a in nodes && LeadsTo(rs, a, b) ==> b in nodes)
  }

  lemma {:induction false} StaysInside(rs: Resource, root: Bytes, nodes: set<Bytes>, p: Path)
    requires NodesOf(rs, root, nodes) && p != [] && p[0] == root && Linked(rs, p)
    ensures forall b :: b in p ==> b in nodes
    decreases |p|
  {
    hide LeadsTo, Parses;
    var n := |p| - 1;
    if n > 0 {
      assert Linked(rs, p[..n]) by {
        assert forall k :: 0 < k < n ==> LeadsTo(rs, p[k - 1], p[k]);
      }
      StaysInside(rs, root, nodes, p[..n]);
      assert p[n - 1] in p[..n] && LeadsTo(rs, p[n - 1], p[n]);
      assert forall b :: b in p ==> b in p[..n] || b == p[n];
    }
  }

  lemma {:induction false} NoRepeatsCounts(p: Path, nodes: set<Bytes>)
    requires NoRepeats(p) && forall b :: b in p ==> b in nodes
    ensures |p| <= |nodes|
    decreases |p|
  {
    if p != [] {
      var n := |p| - 1;
      assert p[n] !in p[..n];
      NoRepeatsCounts(p[..n], nodes - {p[n]});
    }
  }

  /** A map of at most 129 nodes with decodable code is always enumerated. */
  lemma SmallMapsEndWell(rs: Resource, root: Bytes, nodes: set<Bytes>)
    requires NodesOf(rs, root, nodes) && |nodes| <= 129
    ensures WalkRoot(rs, root).end == Fine
  {
    EndsWellIff(rs, root);
    forall p | SimplePath(rs, root, p) ensures Manageable(rs, p) {
      StaysInside(rs, root, nodes, p);
      NoRepeatsCounts(p, nodes);
      assert p[|p| - 1] in p;
    }
  }

  // ----- the objects -----

  /** A node as the index keeps it. */
  datatype NodeV = NodeV(name: Bytes, conn: Path)

  /** The index of all nodes mentioned so far, under their names. */
  class NodeIndex {
    var nodes: map<Bytes, NodeV>

    constructor ()
      ensures Valid() && nodes == map[]
    {
      nodes := map[];
    }

    /** Entries are made before a node is connected to anything, and never changed. */
    ghost predicate Valid()
      reads this
    {
      forall k :: k in nodes ==> nodes[k] == NodeV(k, [])
    }

    ghost predicate Knows(conn: Path)
      reads this
    {
      forall c :: c in conn ==> c in nodes
    }
  }

  class Node {
    var Name: Bytes
    var conn: Path

    constructor (n: NodeV)
      ensures Name == n.name && conn == n.conn
    {
      Name, conn := n.name, n.conn;
    }

    method HaveConn(peer: Bytes) returns (r: bool)
      ensures r <==> peer in conn
    {
      var i := 0;
      while i < |conn|
        invariant 0 <= i <= |conn| && peer !in conn[..i]
      {
        if peer == conn[i] {
          return true;
        }
        i := i + 1;
      }
      return false;
    }

    method Connect(peer: NodeV, index: NodeIndex) returns (added: bool)
      modifies this, index
      ensures Name == old(Name) && conn == Connected(old(conn), peer.name) && (added <==> peer.name !in old(conn))
      ensures index.nodes == if peer.name in old(index.nodes) then old(index.nodes) else old(index.nodes)[peer.name := peer]
    {
      if peer.name !in index.nodes {
        index.nodes := index.nodes[peer.name := peer];
      }
      var have := HaveConn(peer.name);
      if have {
        return false;
      }
      conn := conn + [peer.name];
      return true;
    }

    /** Takes the first connection that is left, as a node of its own. */
    method Next(index: NodeIndex) returns (n: Node?)
      modifies this
      ensures Name == old(Name)
      ensures old(conn) == [] ==> n == null && conn == []
      ensures old(conn) != [] ==> n != null && fresh(n) && conn == old(conn)[1..]
      ensures old(conn) != [] && old(conn)[0] in index.nodes ==>
        NodeV(n.Name, n.conn) == index.nodes[old(conn)[0]]
    {
      if |conn| == 0 {
        return null;
      }
      var r := if conn[0] in index.nodes then index.nodes[conn[0]] else NodeV([], []);
      conn := conn[1..];
      n := new Node(r);
    }

    /** Parses code with the handlers that connect the node to every target. */
    method Parse(code: Bytes, index: NodeIndex) returns (end: End)
      requires index.Valid() && index.Knows(conn)
      modifies this, index
      ensures end == Decode(code).end && Name == old(Name) && conn == Edges(old(conn), Decode(code).calls)
      ensures index.Valid() && index.Knows(conn) && old(index.nodes).Keys <= index.nodes.Keys
    {
      var calls, e := ParseAll(code);
      hide Decode;
      var i := 0;
      while i < |calls|
        invariant 0 <= i <= |calls|
        invariant Name == old(Name) && Edges(conn, calls[i..]) == Edges(old(conn), calls)
        invariant index.Valid() && index.Knows(conn) && old(index.nodes).Keys <= index.nodes.Keys
      {
        assert calls[i..][0] == calls[i] && calls[i..][1..] == calls[i + 1..];
        var t := TargetOf(calls[i]);
        if t.Some? {
          var added := Connect(NodeV(t.value, []), index);
        }
        i := i + 1;
      }
      return e;
    }
  }

  function Joined(ps: seq<Path>): (r: seq<Bytes>)
    ensures |r| == |ps| && forall i :: 0 <= i < |r| ==> r[i] == Join(ps[i], SLASH)
  {
    seq(|ps|, i requires 0 <= i < |ps| => Join(ps[i], SLASH))
  }

  lemma JoinedMore(outs: seq<Bytes>, a: seq<Path>, b: seq<Path>)
    ensures outs + Joined(a) + Joined(b) == outs + Joined(a + b)
  {
    assert Joined(a + b) == Joined(a) + Joined(b);
  }

  class NodeMap {
    const st: State
    const root: Node
    const index: NodeIndex
    var outs: seq<Bytes>

    constructor (name: Bytes, index: NodeIndex)
      requires index.Valid()
      ensures Valid() && this.index == index && root.Name == name && root.conn == []
      ensures st.ExecPath == [] && outs == []
    {
      this.st := new State(0);
      this.root := new Node(NodeV(name, []));
      this.index := index;
      outs := [];
    }

    ghost predicate Valid()
      reads this, st, index
    {
      st.Valid() && index.Valid()
    }

    /** Depth first from `node`; a node already on the stack is a loop, and is left alone. */
    method ProcessNode(node: Node, rs: Resource) returns (r: WalkEnd)
      requires Valid() && index.Knows(node.conn)
      modifies this, st, index, node
      ensures Valid() && old(index.nodes).Keys <= index.nodes.Keys
      ensures var w := WalkNode(rs, old(st.ExecPath), old(node.Name), old(node.conn));
        r == w.end && (r != WalkPanic ==> outs == old(outs) + Joined(w.outs) && st.ExecPath == w.stack)
      decreases MAX_LEVEL + 1 - |st.ExecPath|
    {
      ghost var path, name, all := st.ExecPath, node.Name, node.conn;
      ghost var here := path + [name];
      NodeWalk(rs, path, name, all);
      NothingJoined(outs);
      hide Decode, Join, WalkNode, WalkAll, Joined, BitsOf;
      if node.Name in st.ExecPath {
        return Fine;
      }
      if |st.ExecPath| > MAX_LEVEL {
        return WalkPanic;
      }
      ghost var done: seq<Path> := [];
      st.Down(node.Name);
      AtStart(rs, here, all);
      hide AtWork;
      while true
        invariant Valid() && index.Knows(node.conn) && old(index.nodes).Keys <= index.nodes.Keys
        invariant st.ExecPath == here && outs == old(outs) + Joined(done)
        invariant AtWork(rs, here, all, done, node.conn)
        decreases |node.conn|
      {
        ghost var left := node.conn;
        var n := node.Next(index);
        if n == null {
          break;
        }
        WorkStep(rs, here, all, done, left);
        var code := rs.code(n.Name);
        if code.None? {
          continue;
        }
        var end := n.Parse(code.value, index);
        if end == BadOpcode {
          return BadProgram;
        } else if end == Crashed {
          return WalkPanic;
        }
        var e := ProcessNode(n, rs);
        ghost var added := WalkNode(rs, here, left[0], EdgesOf(code.value)).outs;
        JoinedMore(old(outs), done, added);
        done := done + added;
        if e != Fine {
          return e;
        }
      }
      WorkDone(rs, here, all, done);
      JoinedMore(old(outs), done, [here]);
      JoinedOne(here);
      outs := outs + [Join(st.ExecPath, SLASH)];
      var sym := st.Up();
      return Fine;
    }

    /** Parses the root and maps everything below it. */
    method Run(rs: Resource) returns (r: WalkEnd)
      requires Valid() && st.ExecPath == [] && root.conn == [] && outs == []
      modifies this, st, index, root
      ensures Valid()
      ensures var w := WalkRoot(rs, old(root.Name));
        r == w.end && (r != WalkPanic ==> outs == Joined(w.outs) && st.ExecPath == w.stack)
    {
      hide Decode, WalkNode, WalkAll;
      var b := rs.code(root.Name);
      if b.None? {
        return BadProgram;
      }
      var end := root.Parse(b.value, index);
      if end == BadOpcode {
        return BadProgram;
      } else if end == Crashed {
        return WalkPanic;
      }
      r := ProcessNode(root, rs);
    }
  }

  // ----- the loop of ProcessNode -----

  /** With `done` added and `left` still to do, the walk over `all` is on its way. */
  ghost predicate AtWork(rs: Resource, path: Path, all: Path, done: seq<Path>, left: Path) {
    var w, rest := WalkAll(rs, path, all), WalkAll(rs, path, left);
    w == Walk(done + rest.outs, rest.end, rest.stack)
  }

  lemma AtStart(rs: Resource, path: Path, all: Path)
    ensures AtWork(rs, path, all, [], all)
  {
    hide WalkAll;
    assert [] + WalkAll(rs, path, all).outs == WalkAll(rs, path, all).outs;
  }

  lemma WorkStep(rs: Resource, path: Path, all: Path, done: seq<Path>, left: Path)
    requires AtWork(rs, path, all, done, left) && left != []
    ensures var code := rs.code(left[0]);
      if code.None? then AtWork(rs, path, all, done, left[1..])
      else if Decode(code.value).end == BadOpcode then WalkAll(rs, path, all) == Walk(done, BadProgram, path)
      else if Decode(code.value).end == Crashed then WalkAll(rs, path, all).end == WalkPanic
      else
        var w := WalkNode(rs, path, left[0], EdgesOf(code.value));
        if w.end == Fine then AtWork(rs, path, all, done + w.outs, left[1..])
        else WalkAll(rs, path, all) == Walk(done + w.outs, w.end, w.stack)
  {
    hide WalkNode, Decode;
    var code := rs.code(left[0]);
    assert done + [] == done;
    if code.Some? {
      var w, rest := WalkNode(rs, path, left[0], EdgesOf(code.value)), WalkAll(rs, path, left[1..]);
      assert done + (w.outs + rest.outs) == done + w.outs + rest.outs;
    }
  }

  lemma WorkDone(rs: Resource, path: Path, all: Path, done: seq<Path>)
    requires AtWork(rs, path, all, done, [])
    ensures WalkAll(rs, path, all) == Walk(done, Fine, path)
  {
    assert done + [] == done;
  }

  lemma NodeWalk(rs: Resource, path: Path, name: Bytes, conn: Path)
    ensures WalkNode(rs, path, name, conn) ==
      if name in path then Walk([], Fine, path)
      else if |path| > MAX_LEVEL then Walk([], WalkPanic, path)
      else
        var w := WalkAll(rs, path + [name], conn);
        if w.end != Fine then w else Walk(w.outs + [path + [name]], Fine, path)
  {
  }

  lemma NothingJoined(outs: seq<Bytes>)
    ensures outs + Joined([]) == outs
  {
  }

  lemma JoinedOne(p: Path)
    ensures Joined([p]) == [Join(p, SLASH)]
  {
  }

  // ----- paths as text -----

  lemma JoinFirst(xs: Path, sep: byte)
    requires |xs| > 1
    ensures sep in Join(xs, sep) && |xs[0]| < |Join(xs, sep)|
    ensures Join(xs, sep)[..|xs[0]|] == xs[0] && Join(xs, sep)[|xs[0]|] == sep
    ensures Join(xs, sep)[|xs[0]| + 1..] == Join(xs[1..], sep)
  {
    var s := Join(xs, sep);
    assert s == xs[0] + [sep] + Join(xs[1..], sep);
    assert s[|xs[0]|] == sep;
  }

  /** The first separator does not come after another one. */
  lemma SeparatorsAgree(s: Bytes, a: nat, b: nat, sep: byte)
    requires a < |s| && b < |s| && s[a] == sep && sep !in s[..b]
    ensures b <= a
  {
    forall j | 0 <= j < b ensures s[j] != sep {
      assert s[..b][j] == s[j];
    }
  }

  /** Paths over names without a separator are told apart by their text. */
  lemma {:induction false} JoinInjective(xs: Path, ys: Path, sep: byte)
    requires xs != [] && ys != [] && Join(xs, sep) == Join(ys, sep)
    requires (forall x :: x in xs ==> sep !in x) && forall y :: y in ys ==> sep !in y
    ensures xs == ys
    decreases |xs|
  {
    var s := Join(xs, sep);
    assert xs[0] in xs && ys[0] in ys;
    if |xs| > 1 {
      JoinFirst(xs, sep);
    }
    if |ys| > 1 {
      JoinFirst(ys, sep);
    }
    if |xs| > 1 && |ys| > 1 {
      SeparatorsAgree(s, |xs[0]|, |ys[0]|, sep);
      SeparatorsAgree(s, |ys[0]|, |xs[0]|, sep);
      JoinInjective(xs[1..], ys[1..], sep);
      assert xs == [xs[0]] + xs[1..] && ys == [ys[0]] + ys[1..];
    } else {
      assert xs == [xs[0]] && ys == [ys[0]];
    }
  }

  /** So the lines of a map are distinct when no simple path runs through a name with a slash. */
  lemma LinesAreDistinct(rs: Resource, root: Bytes)
    requires WalkRoot(rs, root).end == Fine
    requires forall p, b :: SimplePath(rs, root, p) && b in p ==> SLASH !in b
    ensures var lines := Joined(WalkRoot(rs, root).outs);
      forall i, j :: 0 <= i < j < |lines| ==> lines[i] != lines[j]
  {
    EnumeratesSimplePaths(rs, root);
    var outs := WalkRoot(rs, root).outs;
    var lines := Joined(outs);
    forall i, j | 0 <= i < j < |lines| ensures lines[i] != lines[j] {
      assert outs[i] in outs && outs[j] in outs;
      if lines[i] == lines[j] {
        JoinInjective(outs[i], outs[j], SLASH);
      }
    }
  }

  // ----- a small map -----

  /** `bar` and `ouch` */
  const BAR: Bytes := [98, 97, 114]
  const OUCH: Bytes := [111, 117, 99, 104]

  /** `CATCH ouch 8 0`, `HALT`, and a lone `HALT` */
  const BAR_CODE: Bytes := [0, 1, 4, 111, 117, 99, 104, 1, 8, 0, 0, 7]
  const HALT_CODE: Bytes := [0, 7]

  lemma BarBytes()
    ensures LineBytes(Line(CATCH, [OUCH], Some([8]), [0])) == BAR_CODE[..10] && LineBytes(Line(HALT, [], None, [])) == HALT_CODE
    ensures FromBytes([8]) == 8
  {
    assert [OUCH][1..] == [] && PrefixedAll([]) == [] && PrefixedAll([OUCH]) == [4] + OUCH + [];
    assert [8][..0] == [] && FromBytes([]) == 0;
  }

  lemma {:induction false} BarDecodes()
    ensures Decode(BAR_CODE) == Decoded([Catch(OUCH, 8, false), Halt], Finished)
    ensures Decode(HALT_CODE) == Decoded([Halt], Finished)
  {
    hide Decode, LineBytes, FromBytes;
    var first, last := Line(CATCH, [OUCH], Some([8]), [0]), Line(HALT, [], None, []);
    var one, two := [last], [first, last];
    BarBytes();
    assert one[1..] == [] && two[1..] == one;
    assert ProgramBytes([]) == [] && ProgramBytes(one) == HALT_CODE + [];
    assert ProgramBytes(two) == BAR_CODE[..10] + ProgramBytes(one);
    assert HALT_CODE + [] == HALT_CODE && BAR_CODE[..10] + HALT_CODE == BAR_CODE;
    assert ProgramBytes(one) == HALT_CODE && ProgramBytes(two) == BAR_CODE;
    assert Meaning(first) == Catch(OUCH, 8, false) && Meaning(last) == Halt;
    assert Meanings(two) == [Catch(OUCH, 8, false), Halt] && Meanings(one) == [Halt];
    RoundTrip(two);
    RoundTrip(one);
  }

  lemma PathLines()
    ensures Joined([[BAR, OUCH], [BAR]]) == [[98, 97, 114, 47, 111, 117, 99, 104], BAR]
  {
    assert [BAR, OUCH][1..] == [OUCH];
    assert BAR + [SLASH] + OUCH == [98, 97, 114, 47, 111, 117, 99, 104];
    var p: Path, q: Path := [BAR, OUCH], [BAR];
    assert Join(p, SLASH) == [98, 97, 114, 47, 111, 117, 99, 104] && Join(q, SLASH) == BAR;
    assert Joined([p, q]) == [Join(p, SLASH), Join(q, SLASH)];
  }

  /** The map from `bar`: `bar/ouch`, and then `bar` itself. */
  lemma {:induction false} BarLeadsToOuch(rs: Resource)
    requires rs.code(BAR) == Some(BAR_CODE) && rs.code(OUCH) == Some(HALT_CODE)
    ensures WalkRoot(rs, BAR) == Walk([[BAR, OUCH], [BAR]], Fine, [])
    ensures Joined([[BAR, OUCH], [BAR]]) == [[98, 97, 114, 47, 111, 117, 99, 104], BAR]
  {
    hide Decode, Joined, Join;
    BarDecodes();
    var calls := [Catch(OUCH, 8, false), Halt];
    assert calls[1..] == [Halt] && [Halt][1..] == [];
    assert Edges([OUCH], []) == [OUCH] && Edges([OUCH], [Halt]) == [OUCH];
    assert EdgesOf(BAR_CODE) == [OUCH];
    assert Edges([], []) == [] && EdgesOf(HALT_CODE) == [];
    var here: Path, deeper: Path, none: Path := [BAR], [BAR, OUCH], [];
    assert none + [BAR] == here && here + [OUCH] == deeper;
    assert WalkAll(rs, deeper, []) == Walk([], Fine, deeper);
    assert WalkNode(rs, here, OUCH, []) == Walk([deeper], Fine, here);
    assert [OUCH][1..] == none;
    assert WalkAll(rs, here, [OUCH]) == Walk([deeper], Fine, here);
    assert [deeper] + [here] == [deeper, here];
    PathLines();
  }
}
