/** Rewriting a record filter into a tree of address lookups in a Bloom filter index, and when a
    negative answer of the index rules a file out. */
module Bloom {
  import opened Options

  const MAX_IP_ADDRESSES: nat := 20

  datatype Address = V4(bits: nat) | V6(bits: nat)

  datatype Side = Source | Destination

  /** A filter tree. `test` names a condition about which nothing is known: a comparison of an address
      other than equality with a full address, or a test of another field. */
  datatype Filter =
    | Addr(equality: bool, masked: bool, side: Side, addr: Address, test: nat)
    | And(left: Filter, right: Filter)
    | Or(left: Filter, right: Filter)
    | Not(operand: Filter)
    | Other(test: nat)

  datatype Flow = Flow(src: Address, dst: Address, tests: nat -> bool)

  predicate Match(f: Filter, flow: Flow) {
    match f
    case Addr(eq, masked, side, addr, test) =>
      if eq && !masked then (if side.Source? then flow.src else flow.dst) == addr else flow.tests(test)
    case And(l, r) => Match(l, flow) && Match(r, flow)
    case Or(l, r) => Match(l, flow) || Match(r, flow)
    case Not(g) => !Match(g, flow)
    case Other(test) => flow.tests(test)
  }

  // ----- building

  datatype Code = Ok | Limit | NoEquality | Masked

  /** The variables shared by all builds of a process. */
  datatype State = State(ipCount: nat, code: Code)

  datatype Tree = Leaf(addr: Address) | Oper(isAnd: bool, left: Tree, right: Tree)

  function Prune(isAnd: bool, l: Option<Tree>, r: Option<Tree>): Option<Tree> {
    if l.None? && r.None? then None
    else if l.None? then r
    else if r.None? then l
    else if l.value.Leaf? && r.value.Leaf? && l.value.addr == r.value.addr then l
    else Some(Oper(isAnd, l.value, r.value))
  }

  function Build(f: Filter, s: State): (Option<Tree>, State) {
    match f
    case Addr(eq, masked, _, addr, _) =>
      if !eq then (None, s.(code := NoEquality))
      else if s.ipCount + 1 > MAX_IP_ADDRESSES then (None, State(s.ipCount + 1, Limit))
      else if masked then (None, State(s.ipCount + 1, Masked))
      else (Some(Leaf(addr)), s.(ipCount := s.ipCount + 1))
    case And(l, r) =>
      var (lt, s1) := Build(l, s);
      var (rt, s2) := Build(r, s1);
      (Prune(true, lt, rt), s2)
    case Or(l, r) =>
      var (lt, s1) := Build(l, s);
      var (rt, s2) := Build(r, s1);
      (Prune(false, lt, rt), s2)
    case Not(_) => (None, s.(code := Ok))
    case Other(_) => (None, s.(code := Ok))
  }

  /** The tree that is used, if any. */
  function Init(f: Filter, s: State): Option<Tree> {
    var (t, s') := Build(f, s);
    if s'.code != Ok then None else t
  }

  // ----- querying

  predicate Contains(index: Address -> bool, t: Tree) {
    match t
    case Leaf(a) => index(a)
    case Oper(true, l, r) => Contains(index, l) && Contains(index, r)
    case Oper(false, l, r) => Contains(index, l) || Contains(index, r)
  }

  /** An index that cannot be loaded rules nothing out. */
  predicate FileMayMatch(index: Option<Address -> bool>, t: Tree) {
    index.None? || Contains(index.value, t)
  }

  /** A Bloom filter has no false negatives: it knows both addresses of every record of its file. */
  ghost predicate IndexOf(index: Address -> bool, file: seq<Flow>) {
    forall flow | flow in file :: index(flow.src) && index(flow.dst)
  }

  /** No file with a matching record is skipped because of the tree. */
  ghost predicate TreeSound(f: Filter, tree: Option<Tree>) {
    forall file: seq<Flow>, index: Option<Address -> bool>, flow ::
      tree.Some? && (index.Some? ==> IndexOf(index.value, file)) && flow in file && Match(f, flow)
      ==> FileMayMatch(index, tree.value)
  }

  ghost predicate Sound(f: Filter, s: State) {
    TreeSound(f, Init(f, s))
  }

  // ----- the condition

  /** Some OR that is visited has exactly one operand the index knows about. */
  predicate HalfOr(f: Filter, s: State) {
    match f
    case And(l, r) => HalfOr(l, s) || HalfOr(r, Build(l, s).1)
    case Or(l, r) =>
      || Build(l, s).0.Some? != Build(r, Build(l, s).1).0.Some?
      || HalfOr(l, s) || HalfOr(r, Build(l, s).1)
    case _ => false
  }

  lemma {:induction false} PruneKeepsMeaning(isAnd: bool, l: Tree, r: Tree, index: Address -> bool)
    ensures var t := Prune(isAnd, Some(l), Some(r));
      t.Some? && (Contains(index, t.value) <==>
        if isAnd then Contains(index, l) && Contains(index, r) else Contains(index, l) || Contains(index, r))
  {
  }

  /** Without a half OR, a record that matches makes the tree true. */
  lemma {:induction false} MatchIsContained(f: Filter, s: State, flow: Flow, index: Address -> bool)
    requires !HalfOr(f, s) && Match(f, flow) && Build(f, s).0.Some?
    requires index(flow.src) && index(flow.dst)
    ensures Contains(index, Build(f, s).0.value)
  {
    match f
    case And(l, r) =>
      var s1 := Build(l, s).1;
      if Build(l, s).0.Some? {
        MatchIsContained(l, s, flow, index);
      }
      if Build(r, s1).0.Some? {
        MatchIsContained(r, s1, flow, index);
      }
      if Build(l, s).0.Some? && Build(r, s1).0.Some? {
        PruneKeepsMeaning(true, Build(l, s).0.value, Build(r, s1).0.value, index);
      }
    case Or(l, r) =>
      var s1 := Build(l, s).1;
      if Match(l, flow) {
        MatchIsContained(l, s, flow, index);
      } else {
        MatchIsContained(r, s1, flow, index);
      }
      PruneKeepsMeaning(false, Build(l, s).0.value, Build(r, s1).0.value, index);
    case _ =>
  }

  /** What is built without a half OR is sound, whatever the code. */
  lemma BuiltTreeSound(f: Filter, s: State)
    requires !HalfOr(f, s)
    ensures TreeSound(f, Build(f, s).0)
  {
    forall file: seq<Flow>, index: Option<Address -> bool>, flow |
      Build(f, s).0.Some? && (index.Some? ==> IndexOf(index.value, file)) && flow in file && Match(f, flow)
      ensures FileMayMatch(index, Build(f, s).0.value)
    {
      if index.Some? {
        MatchIsContained(f, s, flow, index.value);
      }
    }
  }

  lemma SoundWithoutHalfOr(f: Filter, s: State)
    requires !HalfOr(f, s)
    ensures Sound(f, s)
  {
    BuiltTreeSound(f, s);
  }

  /** The same connectives over the same kinds of tests; addresses, sides and other tests may differ. */
  predicate SameShape(f: Filter, g: Filter) {
    match (f, g)
    case (Addr(e, m, _, _, _), Addr(e', m', _, _, _)) => e == e' && m == m'
    case (And(l, r), And(l', r')) => SameShape(l, l') && SameShape(r, r')
    case (Or(l, r), Or(l', r')) => SameShape(l, l') && SameShape(r, r')
    case (Not(x), Not(x')) => SameShape(x, x')
    case (Other(_), Other(_)) => true
    case _ => false
  }

  /** Which operands are built, and so the condition, depends on the shape only. */
  lemma {:induction false} ShapeDecides(f: Filter, g: Filter, s: State)
    requires SameShape(f, g)
    ensures Build(f, s).0.Some? == Build(g, s).0.Some? && Build(f, s).1 == Build(g, s).1
    ensures HalfOr(f, s) == HalfOr(g, s)
  {
    match f
    case And(l, r) =>
      ShapeDecides(l, g.left, s);
      ShapeDecides(r, g.right, Build(l, s).1);
    case Or(l, r) =>
      ShapeDecides(l, g.left, s);
      ShapeDecides(r, g.right, Build(l, s).1);
    case _ =>
  }

  // ----- a half OR can always be made to fail

  const HERE: Address := V4(0)
  const ELSEWHERE: Address := V4(1)

  /** A record with one address, for which test 1 holds and no other. */
  function Witness(): Flow {
    Flow(HERE, HERE, test => test == 1)
  }

  function WitnessIndex(): Address -> bool {
    a => a == HERE
  }

  /** The filter with addresses and tests chosen so that the witness makes it `v`. */
  function Relabel(f: Filter, v: bool): (g: Filter)
    ensures SameShape(f, g)
  {
    match f
    case Addr(e, m, side, _, _) => Addr(e, m, side, if v then HERE else ELSEWHERE, if v then 1 else 0)
    case And(l, r) => And(Relabel(l, v), Relabel(r, v))
    case Or(l, r) => Or(Relabel(l, v), Relabel(r, v))
    case Not(x) => Not(Relabel(x, !v))
    case Other(_) => Other(if v then 1 else 0)
  }

  lemma {:induction false} RelabelMatches(f: Filter, v: bool)
    ensures Match(Relabel(f, v), Witness()) == v
  {
    match f
    case And(l, r) => RelabelMatches(l, v); RelabelMatches(r, v);
    case Or(l, r) => RelabelMatches(l, v); RelabelMatches(r, v);
    case Not(x) => RelabelMatches(x, !v);
    case _ =>
  }

  lemma {:induction false} RelabelContained(f: Filter, v: bool, s: State)
    requires Build(Relabel(f, v), s).0.Some?
    ensures Contains(WitnessIndex(), Build(Relabel(f, v), s).0.value) == v
  {
    if f.And? || f.Or? {
      var (lt, s1) := Build(Relabel(f.left, v), s);
      var (rt, _) := Build(Relabel(f.right, v), s1);
      if lt.Some? {
        RelabelContained(f.left, v, s);
      }
      if rt.Some? {
        RelabelContained(f.right, v, s1);
      }
      if lt.Some? && rt.Some? {
        PruneKeepsMeaning(f.And?, lt.value, rt.value, WitnessIndex());
      }
    }
  }

  lemma {:induction false} HalfOrIsBuilt(f: Filter, s: State)
    requires HalfOr(f, s)
    ensures Build(f, s).0.Some?
  {
    var s1 := Build(f.left, s).1;
    if HalfOr(f.left, s) {
      HalfOrIsBuilt(f.left, s);
    } else if HalfOr(f.right, s1) {
      HalfOrIsBuilt(f.right, s1);
    }
  }

  /** A filter of the same shape that the witness matches although its tree is false. */
  lemma {:induction false} Spoil(f: Filter, s: State) returns (g: Filter)
    requires HalfOr(f, s)
    ensures SameShape(f, g) && Match(g, Witness())
    ensures Build(g, s).0.Some? && !Contains(WitnessIndex(), Build(g, s).0.value)
  {
    var l, r := f.left, f.right;
    var s1 := Build(l, s).1;
    var lBuilt, rBuilt := Build(l, s).0.Some?, Build(r, s1).0.Some?;
    HalfOrIsBuilt(f, s);
    var gl, gr;
    if f.Or? && lBuilt != rBuilt {
      gl, gr := Relabel(l, !lBuilt), Relabel(r, !rBuilt);
      RelabelMatches(l, !lBuilt);
      RelabelMatches(r, !rBuilt);
      ShapeDecides(l, gl, s);
      ShapeDecides(r, gr, s1);
      if lBuilt {
        RelabelContained(l, false, s);
      } else {
        RelabelContained(r, false, s1);
      }
      g := Or(gl, gr);
    } else {
      if HalfOr(l, s) {
        gl := Spoil(l, s);
        gr := Relabel(r, f.And?);
        RelabelMatches(r, f.And?);
        ShapeDecides(l, gl, s);
        if Build(gr, s1).0.Some? {
          RelabelContained(r, f.And?, s1);
        }
      } else {
        gl := Relabel(l, f.And?);
        gr := Spoil(r, s1);
        RelabelMatches(l, f.And?);
        ShapeDecides(l, gl, s);
        if Build(gl, s).0.Some? {
          RelabelContained(l, f.And?, s);
        }
      }
      g := if f.And? then And(gl, gr) else Or(gl, gr);
      SpoiledOperands(f.And?, Build(gl, s).0, Build(gr, s1).0, HalfOr(l, s));
    }
  }

  lemma SpoiledOperands(isAnd: bool, l: Option<Tree>, r: Option<Tree>, leftSpoiled: bool)
    requires var spoiled, kept := if leftSpoiled then l else r, if leftSpoiled then r else l;
      && spoiled.Some? && !Contains(WitnessIndex(), spoiled.value)
      && (kept.Some? ==> Contains(WitnessIndex(), kept.value) == isAnd)
    ensures Prune(isAnd, l, r).Some? && !Contains(WitnessIndex(), Prune(isAnd, l, r).value)
  {
    if l.Some? && r.Some? {
      PruneKeepsMeaning(isAnd, l.value, r.value, WitnessIndex());
    }
  }

  /** Which filters are safe to index: a shape is sound for all addresses and tests put into it just
      when no index is used or it has no half OR. This holds from any state earlier builds left. */
  lemma SoundShapes(f: Filter, s: State)
    ensures (forall g :: SameShape(f, g) ==> Sound(g, s)) <==> Init(f, s).None? || !HalfOr(f, s)
  {
    if Init(f, s).None? || !HalfOr(f, s) {
      forall g | SameShape(f, g)
        ensures Sound(g, s)
      {
        ShapeDecides(f, g, s);
        if !HalfOr(f, s) {
          SoundWithoutHalfOr(g, s);
        }
      }
    } else {
      var g := BuiltTreeUnsound(f, s);
      ShapeDecides(f, g, s);
      assert SameShape(f, g) && !Sound(g, s);
    }
  }

  /** With a half OR some filter of the shape builds a tree that skips a match. */
  lemma BuiltTreeUnsound(f: Filter, s: State) returns (g: Filter)
    requires HalfOr(f, s)
    ensures SameShape(f, g) && !TreeSound(g, Build(g, s).0)
  {
    g := Spoil(f, s);
    Refutes(g, Build(g, s).0, [Witness()], WitnessIndex(), Witness());
  }

  // ----- filters of addresses only

  predicate OnlyAddresses(f: Filter) {
    match f
    case Addr(_, _, _, _, _) => true
    case And(l, r) => OnlyAddresses(l) && OnlyAddresses(r)
    case Or(l, r) => OnlyAddresses(l) && OnlyAddresses(r)
    case _ => false
  }

  /** Errors stick as long as no node is skipped. */
  lemma {:induction false} AddressesAllBuilt(f: Filter, s: State)
    requires OnlyAddresses(f) && Build(f, s).1.code == Ok
    ensures s.code == Ok && Build(f, s).0.Some? && !HalfOr(f, s)
  {
    if f.And? || f.Or? {
      AddressesAllBuilt(f.right, Build(f.left, s).1);
      AddressesAllBuilt(f.left, s);
    }
  }

  lemma AddressFiltersSound(f: Filter, s: State)
    requires OnlyAddresses(f)
    ensures Sound(f, s)
  {
    if Build(f, s).1.code == Ok {
      AddressesAllBuilt(f, s);
      SoundWithoutHalfOr(f, s);
    }
  }

  /** What the filter language makes of "ip X". */
  function Ip(a: Address): Filter {
    Or(Addr(true, false, Source, a, 0), Addr(true, false, Destination, a, 0))
  }

  /** One level of a build. */
  lemma OrBuilt(l: Filter, r: Filter, s: State, lt: Option<Tree>, s1: State, rt: Option<Tree>, s2: State)
    requires Build(l, s) == (lt, s1) && Build(r, s1) == (rt, s2)
    ensures Build(Or(l, r), s) == (Prune(false, lt, rt), s2)
    ensures HalfOr(Or(l, r), s) <==> lt.Some? != rt.Some? || HalfOr(l, s) || HalfOr(r, s1)
  {
  }

  lemma LeafBuilt(side: Side, a: Address, s: State)
    ensures var f := Addr(true, false, side, a, 0);
      && !HalfOr(f, s)
      && Build(f, s) ==
        if s.ipCount < MAX_IP_ADDRESSES then (Some(Leaf(a)), s.(ipCount := s.ipCount + 1)) else (None,
          State(s.ipCount + 1, Limit))
  {
  }

  lemma IpBuilt(a: Address, s: State)
    requires s.ipCount + 2 <= MAX_IP_ADDRESSES
    ensures Build(Ip(a), s) == (Some(Leaf(a)), s.(ipCount := s.ipCount + 2)) && !HalfOr(Ip(a), s)
  {
    var s1, s2 := s.(ipCount := s.ipCount + 1), s.(ipCount := s.ipCount + 2);
    LeafBuilt(Source, a, s);
    LeafBuilt(Destination, a, s1);
    OrBuilt(Addr(true, false, Source, a, 0), Addr(true, false, Destination, a, 0), s, Some(Leaf(a)), s1, Some(Leaf(a)),
      s2);
  }

  lemma IpRefused(a: Address, s: State)
    requires s.ipCount >= MAX_IP_ADDRESSES
    ensures Build(Ip(a), s) == (None, State(s.ipCount + 2, Limit))
  {
    var s1, s2 := State(s.ipCount + 1, Limit), State(s.ipCount + 2, Limit);
    LeafBuilt(Source, a, s);
    LeafBuilt(Destination, a, s1);
    OrBuilt(Addr(true, false, Source, a, 0), Addr(true, false, Destination, a, 0), s, None, s1, None, s2);
  }

  /** "ip X or port > 1024" skips files it must not skip. */
  lemma HalfOrSkipsMatches(x: Address, s: State)
    requires s.ipCount + 2 <= MAX_IP_ADDRESSES
    ensures var f := Or(Ip(x), Other(1));
      Init(f, s) == Some(Leaf(x)) && HalfOr(f, s) && !Sound(f, s)
  {
    var f := Or(Ip(x), Other(1));
    var y := if x == HERE then ELSEWHERE else HERE;
    var flow := Flow(y, y, test => test == 1);
    var index: Address -> bool := a => a == y;
    var s2 := s.(ipCount := s.ipCount + 2);
    IpBuilt(x, s);
    OrBuilt(Ip(x), Other(1), s, Some(Leaf(x)), s2, None, s2.(code := Ok));
    assert flow.tests(1) && Match(Other(1), flow);
    Refutes(f, Init(f, s), [flow], index, flow);
  }

  /** A file with a match that is ruled out. */
  lemma Refutes(f: Filter, tree: Option<Tree>, file: seq<Flow>, index: Address -> bool, flow: Flow)
    requires tree.Some? && IndexOf(index, file) && flow in file && Match(f, flow)
    requires !Contains(index, tree.value)
    ensures !TreeSound(f, tree)
  {
    assert !FileMayMatch(Some(index), tree.value);
    assert IndexOf(Some(index).value, file);
  }

  // ----- the shape of built trees

  /** No operator has twice the same address below it. */
  predicate Reduced(t: Tree) {
    match t
    case Leaf(_) => true
    case Oper(_, l, r) => Reduced(l) && Reduced(r) && !(l.Leaf? && l == r)
  }

  lemma {:induction false} BuiltTreesReduced(f: Filter, s: State)
    ensures Build(f, s).0.Some? ==> Reduced(Build(f, s).0.value)
  {
    match f
    case And(l, r) =>
      BuiltTreesReduced(l, s);
      BuiltTreesReduced(r, Build(l, s).1);
    case Or(l, r) =>
      BuiltTreesReduced(l, s);
      BuiltTreesReduced(r, Build(l, s).1);
    case _ =>
  }

  // ----- the number of addresses

  function Leaves(t: Tree): nat {
    match t
    case Leaf(_) => 1
    case Oper(_, l, r) => Leaves(l) + Leaves(r)
  }

  function Addresses(t: Option<Tree>): nat {
    if t.Some? then Leaves(t.value) else 0
  }

  /** The count grows by at least the addresses of the tree, and a tree is within the limit. */
  lemma {:induction false} BuildLimit(f: Filter, s: State)
    ensures s.ipCount + Addresses(Build(f, s).0) <= Build(f, s).1.ipCount
    ensures Build(f, s).0.Some? ==> s.ipCount + Addresses(Build(f, s).0) <= MAX_IP_ADDRESSES
  {
    if f.And? || f.Or? {
      BuildLimit(f.left, s);
      BuildLimit(f.right, Build(f.left, s).1);
    }
  }

  /** The addresses of all trees built one after another. */
  function AllAddresses(fs: seq<Filter>, s: State): nat {
    if |fs| == 0 then 0 else Addresses(Build(fs[0], s).0) + AllAddresses(fs[1..], Build(fs[0], s).1)
  }

  /** The trees built over the life of a process never hold more than the allowed number of addresses
      together, whatever the filters. */
  lemma {:induction false} AddressLimit(fs: seq<Filter>, s: State)
    ensures AllAddresses(fs, s) > 0 ==> s.ipCount + AllAddresses(fs, s) <= MAX_IP_ADDRESSES
  {
    if |fs| > 0 {
      BuildLimit(fs[0], s);
      AddressLimit(fs[1..], Build(fs[0], s).1);
    }
  }
}
