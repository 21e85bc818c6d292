/**
 * The stage registry (LinqGen.Generator/LinqGenSyntaxReceiver.cs): stub calls
 * found in user code are turned into generations and evaluations once per
 * signature, every creation attempt takes the next id, every attempt leaves
 * one line in the log, and `ResolveHierarchy` links each stage to the
 * generation its upstream signature names, collecting the generations that
 * have no upstream as roots.
 *
 * Roslyn symbols are an abstract key type compared by identity. The
 * dictionaries are maps; the order in which `Dictionary.Values` enumerates
 * them (insertion order, as nothing is ever removed) is kept beside each map.
 * The log holds events rather than formatted text.
 */
module Registry {
  import opened Wrappers
  import Factory

  /** A type or method symbol, compared with `SymbolEqualityComparer.Default`. */
  datatype Symbol = Symbol(name: string, uid: nat)

  /**
   * What the registry reads of a parsed stub call: the signature symbol (the
   * stub's return type), the upstream's signature, the stub method, the input
   * element type, and what the factory reads of the call.
   */
  datatype Expression = Expression(
    signature: Symbol, upstreamSignature: Option<Symbol>, stubMethod: Symbol,
    inputElement: Option<Symbol>, call: Factory.LinqGenExpression)

  /**
   * `EvaluationKey`: evaluations are told apart by upstream signature, method
   * and input element; the input element may be absent (`null`), which is a
   * key of its own.
   */
  datatype EvaluationKey = EvaluationKey(upstream: Symbol, stubMethod: Symbol, inputElement: Option<Symbol>)

  /**
   * What a registered stage is: a generation with the id it was created with,
   * or an evaluation (whose constructor takes no id).
   */
  datatype NodeInfo =
    | GenerationInfo(id: nat, instruction: Factory.Instruction)
    | EvaluationInfo(kind: Factory.EvaluationKind)

  /** One line of the log. */
  datatype Event =
    | GenerationLine(instruction: Factory.Instruction, signature: Symbol)
    | GenerationFailedLine(signature: Symbol)
    | EvaluationLine(kind: Factory.EvaluationKind, stubMethod: Symbol)
    | EvaluationFailedLine(upstream: Symbol, stubMethod: Symbol)

  /** The symbol a generation line is about, if it is one. */
  function GenerationLineSignature(ev: Event): Option<Symbol>
  {
    match ev
    case GenerationLine(_, s) => Some(s)
    case GenerationFailedLine(s) => Some(s)
    case _ => None
  }

  /** A registered stage as the registry sees it: what it is and which signature it names as upstream. */
  datatype Entry = Entry(info: NodeInfo, upstreamSignature: Option<Symbol>)

  /** The registry's bookkeeping, without the links between stages. */
  datatype Book = Book(
    generations: map<Symbol, Entry>, generationOrder: seq<Symbol>,
    evaluations: map<EvaluationKey, Entry>, evaluationOrder: seq<EvaluationKey>,
    idCounter: nat, log: seq<Event>)

  /**
   * Ids are unique and no larger than the counter; generation entries are
   * generations and evaluation entries are evaluations with an upstream; each
   * order lists its map's keys once each.
   */
  predicate ValidBook(b: Book)
  {
    && (forall k :: k in b.generations ==>
          b.generations[k].info.GenerationInfo? && 1 <= b.generations[k].info.id <= b.idCounter)
    && (forall k1, k2 :: k1 in b.generations && k2 in b.generations && k1 != k2 ==>
          b.generations[k1].info.id != b.generations[k2].info.id)
    && (forall k :: k in b.evaluations ==>
          b.evaluations[k].info.EvaluationInfo? && b.evaluations[k].upstreamSignature == Some(k.upstream))
    && (forall k :: k in b.generations ==> k in b.generationOrder)
    && (forall k :: k in b.generationOrder ==> k in b.generations)
    && (forall i, j :: 0 <= i < j < |b.generationOrder| ==> b.generationOrder[i] != b.generationOrder[j])
    && (forall k :: k in b.evaluations ==> k in b.evaluationOrder)
    && (forall k :: k in b.evaluationOrder ==> k in b.evaluations)
    && (forall i, j :: 0 <= i < j < |b.evaluationOrder| ==> b.evaluationOrder[i] != b.evaluationOrder[j])
  }

  /**
   * A new signature whose creation throws after taking an id: indexing past a
   * type-argument list, as `Specialize` without a type argument or a `Select`
   * variant whose selector type has too few type arguments does.
   */
  predicate GenerationThrows(b: Book, e: Expression)
  {
    e.signature !in b.generations &&
    Factory.CreateGeneration(e.call, b.idCounter + 1) == Factory.IndexOutOfRange
  }

  /**
   * `AddGeneration`: a signature already present changes nothing; otherwise
   * the counter is incremented, and the factory's stage, if any, is stored
   * under the signature with the new id and logged, or a failure is logged.
   */
  function RegisterGeneration(b: Book, e: Expression): (r: Book)
    ensures e.signature in b.generations ==> r == b
    ensures e.signature !in b.generations ==>
      && r.idCounter == b.idCounter + 1
      && r.evaluations == b.evaluations && r.evaluationOrder == b.evaluationOrder
      && (forall k :: k in b.generations ==> k in r.generations && r.generations[k] == b.generations[k])
      && (forall k :: k in r.generations ==> k in b.generations || k == e.signature)
      && |r.log| == |b.log| + (if GenerationThrows(b, e) then 0 else 1)
      && r.log[..|b.log|] == b.log
      && (|r.log| > |b.log| ==> GenerationLineSignature(r.log[|b.log|]) == Some(e.signature))
    ensures e.signature in r.generations && e.signature !in b.generations ==>
      r.generations[e.signature].info.GenerationInfo? && r.generations[e.signature].info.id == r.idCounter &&
      r.generations[e.signature].upstreamSignature == e.upstreamSignature
    ensures e.signature !in b.generations ==>
      var c := Factory.CreateGeneration(e.call, b.idCounter + 1);
      && (e.signature in r.generations <==> c.Generation?)
      && (c.Generation? ==> r.generations[e.signature].info == GenerationInfo(b.idCounter + 1, c.instruction) &&
                            r.log == b.log + [GenerationLine(c.instruction, e.signature)])
      && (c.NotSupported? ==> r.log == b.log + [GenerationFailedLine(e.signature)])
      && (c.IndexOutOfRange? ==> r.log == b.log && r.generations == b.generations)
  {
    if e.signature in b.generations then b
    else
      var id := b.idCounter + 1;
      RecordGeneration(b, e, id, Factory.CreateGeneration(e.call, id))
  }

  /**
   * What `AddGeneration` records once it has taken `id` and the factory has
   * answered `created`: the counter moves to `id`, the signature is stored only
   * when a stage was created, every other entry is kept, and one line is added
   * to the log unless the factory threw.
   */
  function RecordGeneration(b: Book, e: Expression, id: nat, created: Factory.Created): (r: Book)
    ensures r.idCounter == id && r.evaluations == b.evaluations && r.evaluationOrder == b.evaluationOrder
    ensures e.signature in r.generations <==> e.signature in b.generations || created.Generation?
    ensures forall k :: k in b.generations && k != e.signature ==> k in r.generations && r.generations[k] == b.generations[k]
    ensures forall k :: k in r.generations ==> k in b.generations || k == e.signature
    ensures |r.log| == |b.log| + (if created.IndexOutOfRange? then 0 else 1) && r.log[..|b.log|] == b.log
  {
    match created
    case IndexOutOfRange => b.(idCounter := id)
    case NotSupported => b.(idCounter := id, log := b.log + [GenerationFailedLine(e.signature)])
    case Generation(ins) =>
      b.(idCounter := id,
         generations := b.generations[e.signature := Entry(GenerationInfo(id, ins), e.upstreamSignature)],
         generationOrder := b.generationOrder + [e.signature],
         log := b.log + [GenerationLine(ins, e.signature)])
  }

  /** The key `AddEvaluation` files a call under. */
  function KeyOf(e: Expression): EvaluationKey
    requires e.upstreamSignature.Some?
  {
    EvaluationKey(e.upstreamSignature.value, e.stubMethod, e.inputElement)
  }

  /**
   * `AddEvaluation`: a key already present changes nothing; otherwise the
   * counter is incremented, and the factory's evaluation, if any, is stored
   * under the key and logged, or a failure is logged. The generations are
   * never touched.
   */
  function RegisterEvaluation(b: Book, e: Expression): (r: Book)
    requires e.upstreamSignature.Some?
    ensures KeyOf(e) in b.evaluations ==> r == b
    ensures KeyOf(e) !in b.evaluations ==>
      && r.idCounter == b.idCounter + 1
      && r.generations == b.generations && r.generationOrder == b.generationOrder
      && (forall k :: k in b.evaluations ==> k in r.evaluations && r.evaluations[k] == b.evaluations[k])
      && (KeyOf(e) in r.evaluations <==> Factory.CreateEvaluation(e.call).Some?)
      && (forall k :: k in r.evaluations ==> k in b.evaluations || k == KeyOf(e))
      && r.log == b.log + [if KeyOf(e) in r.evaluations then EvaluationLine(Factory.CreateEvaluation(e.call).value, e.stubMethod)
                           else EvaluationFailedLine(e.upstreamSignature.value, e.stubMethod)]
    ensures KeyOf(e) !in b.evaluations ==>
      var c := Factory.CreateEvaluation(e.call);
      && (c.Some? ==> r.evaluations[KeyOf(e)] == Entry(EvaluationInfo(c.value), e.upstreamSignature) &&
                      r.evaluationOrder == b.evaluationOrder + [KeyOf(e)])
      && (c.None? ==> r.evaluations == b.evaluations && r.evaluationOrder == b.evaluationOrder)
  {
    var key := KeyOf(e);
    if key in b.evaluations then b
    else
      var id := b.idCounter + 1;
      match Factory.CreateEvaluation(e.call)
      case None => b.(idCounter := id, log := b.log + [EvaluationFailedLine(key.upstream, e.stubMethod)])
      case Some(kind) =>
        b.(idCounter := id,
           evaluations := b.evaluations[key := Entry(EvaluationInfo(kind), e.upstreamSignature)],
           evaluationOrder := b.evaluationOrder + [key],
           log := b.log + [EvaluationLine(kind, e.stubMethod)])
  }

  /** Registering a generation keeps ids unique, and a stored stage's id is larger than every earlier one. */
  lemma RegisterGenerationValid(b: Book, e: Expression)
    requires ValidBook(b)
    ensures ValidBook(RegisterGeneration(b, e))
    ensures var r := RegisterGeneration(b, e);
            e.signature in r.generations && e.signature !in b.generations ==>
              forall k :: k in b.generations ==> b.generations[k].info.id < r.generations[e.signature].info.id
  {
    if e.signature !in b.generations {
      var id := b.idCounter + 1;
      RecordGenerationValid(b, e, id, Factory.CreateGeneration(e.call, id));
    }
  }

  /** Recording a new signature under the next id keeps the bookkeeping valid, whatever the factory made of it. */
  lemma RecordGenerationValid(b: Book, e: Expression, id: nat, created: Factory.Created)
    requires ValidBook(b) && e.signature !in b.generations && id == b.idCounter + 1
    ensures ValidBook(RecordGeneration(b, e, id, created))
  {
    if created.Generation? {
      var r := RecordGeneration(b, e, id, created);
      assert e.signature !in b.generationOrder;
      assert r.generationOrder == b.generationOrder + [e.signature];
    }
  }

  /** Registering an evaluation keeps the book valid. */
  lemma RegisterEvaluationValid(b: Book, e: Expression)
    requires ValidBook(b) && e.upstreamSignature.Some?
    ensures ValidBook(RegisterEvaluation(b, e))
  {
    var r := RegisterEvaluation(b, e);
    if KeyOf(e) !in b.evaluations && KeyOf(e) in r.evaluations {
      assert r.evaluationOrder == b.evaluationOrder + [KeyOf(e)];
      assert forall k :: k in r.evaluations <==> k in r.evaluationOrder;
    }
  }

  /**
   * Registering predefined generations one after another, stopping at the
   * first that throws; the flag says whether one threw. Evaluations and
   * earlier generations and log lines are kept, each attempt takes at most one
   * id, and without a throw every one of them was attempted.
   */
  function RegisterPredefined(b: Book, es: seq<Expression>): (r: (Book, bool))
    ensures r.0.evaluations == b.evaluations && r.0.evaluationOrder == b.evaluationOrder
    ensures forall k :: k in b.generations ==> k in r.0.generations && r.0.generations[k] == b.generations[k]
    ensures b.idCounter <= r.0.idCounter <= b.idCounter + |es|
    ensures |b.log| <= |r.0.log| && r.0.log[..|b.log|] == b.log
    ensures r.1 ==> es != []
    decreases |es|
  {
    if es == [] then (b, false)
    else if GenerationThrows(b, es[0]) then (RegisterGeneration(b, es[0]), true)
    else RegisterPredefined(RegisterGeneration(b, es[0]), es[1..])
  }

  /**
   * Predefined sources with new, distinct signatures are attempted in the
   * order given: each takes the next id and writes the next log line, about
   * its own signature.
   */
  lemma {:induction false} PredefinedInOrder(b: Book, es: seq<Expression>)
    requires forall j :: 0 <= j < |es| ==> es[j].signature !in b.generations
    requires forall i, j :: 0 <= i < j < |es| ==> es[i].signature != es[j].signature
    requires !RegisterPredefined(b, es).1
    ensures var r := RegisterPredefined(b, es).0;
            && r.idCounter == b.idCounter + |es|
            && |r.log| == |b.log| + |es| && r.log[..|b.log|] == b.log
            && forall j :: 0 <= j < |es| ==> GenerationLineSignature(r.log[|b.log| + j]) == Some(es[j].signature)
    decreases |es|
  {
    if es != [] {
      var b1 := RegisterGeneration(b, es[0]);
      assert !GenerationThrows(b, es[0]);
      assert forall j :: 0 <= j < |es[1..]| ==> es[1..][j].signature !in b1.generations by {
        forall j | 0 <= j < |es[1..]|
          ensures es[1..][j].signature !in b1.generations
        {
          assert es[1..][j] == es[j + 1];
        }
      }
      PredefinedInOrder(b1, es[1..]);
      var r := RegisterPredefined(b1, es[1..]).0;
      assert r == RegisterPredefined(b, es).0;
      assert r.log[..|b1.log|] == b1.log;
      forall j | 0 <= j < |es|
        ensures GenerationLineSignature(r.log[|b.log| + j]) == Some(es[j].signature)
      {
        if j == 0 {
          assert r.log[|b.log|] == r.log[..|b1.log|][|b.log|] == b1.log[|b.log|];
        } else {
          assert es[j] == es[1..][j - 1];
        }
      }
      assert r.log[..|b.log|] == r.log[..|b1.log|][..|b.log|];
    }
  }

  /** A registered stage: what it is, which signature it names as upstream, and the links `ResolveHierarchy` makes. */
  class Node {
    const info: NodeInfo
    const upstreamSignature: Option<Symbol>
    var upstream: Node?
    var downstreams: set<Node>

    constructor(info: NodeInfo, upstreamSignature: Option<Symbol>)
      ensures this.info == info && this.upstreamSignature == upstreamSignature
      ensures upstream == null && downstreams == {}
    {
      this.info := info;
      this.upstreamSignature := upstreamSignature;
      upstream := null;
      downstreams := {};
    }

    /** The entry the registry's bookkeeping holds for this stage. */
    function AsEntry(): Entry
    {
      Entry(info, upstreamSignature)
    }

    /** `Operation.SetUpstream`: record the upstream, and add this stage to the upstream's downstreams. */
    method SetUpstream(up: Node)
      modifies this, up
      ensures upstream == up
      ensures up.downstreams == old(up.downstreams) + {this}
      ensures up != this ==> downstreams == old(downstreams) && up.upstream == old(up.upstream)
    {
      upstream := up;
      up.downstreams := up.downstreams + {this};
    }
  }

  /** The entries of a map of registered stages. */
  function Entries<K>(m: map<K, Node>): (r: map<K, Entry>)
    ensures r.Keys == m.Keys
    ensures forall k :: k in m ==> r[k] == m[k].AsEntry()
  {
    map k | k in m :: m[k].AsEntry()
  }

  /** Storing a node stores its entry. */
  lemma EntriesStore<K>(m: map<K, Node>, k: K, n: Node)
    ensures Entries(m[k := n]) == Entries(m)[k := n.AsEntry()]
  {
  }

  /** The generations among `ks` that have no upstream signature, in the order of `ks`. */
  function RootsAmong(gens: map<Symbol, Node>, ks: seq<Symbol>): seq<Node>
  {
    if ks == [] then []
    else
      var k := ks[|ks| - 1];
      RootsAmong(gens, ks[..|ks| - 1]) +
        (if k in gens && gens[k].upstreamSignature.None? then [gens[k]] else [])
  }

  /** Every root is a generation among `ks` without an upstream signature. */
  lemma {:induction false} RootsSound(gens: map<Symbol, Node>, ks: seq<Symbol>, n: Node)
    requires n in RootsAmong(gens, ks)
    ensures n.upstreamSignature.None? && exists k :: k in ks && k in gens && gens[k] == n
    decreases |ks|
  {
    var last := ks[|ks| - 1];
    var init := ks[..|ks| - 1];
    if n in RootsAmong(gens, init) {
      RootsSound(gens, init, n);
      var k :| k in init && k in gens && gens[k] == n;
      assert k in ks;
    } else {
      assert last in ks;
    }
  }

  /** Every generation among `ks` without an upstream signature is among the roots. */
  lemma {:induction false} RootsComplete(gens: map<Symbol, Node>, ks: seq<Symbol>, k: Symbol)
    requires k in ks && k in gens && gens[k].upstreamSignature.None?
    ensures gens[k] in RootsAmong(gens, ks)
    decreases |ks|
  {
    var last := ks[|ks| - 1];
    if k != last {
      assert ks == ks[..|ks| - 1] + [last];
      RootsComplete(gens, ks[..|ks| - 1], k);
    }
  }

  /** `d` names a generation of `gens` as its upstream. */
  predicate Linked(gens: map<Symbol, Node>, d: Node)
  {
    d.upstreamSignature.Some? && d.upstreamSignature.value in gens
  }

  /** The generation `d` names as its upstream. */
  function Target(gens: map<Symbol, Node>, d: Node): (g: Node)
    requires Linked(gens, d)
    ensures g in gens.Values
  {
    gens[d.upstreamSignature.value]
  }

  /** The stages among `among` that name `g` as their upstream. */
  function Incoming(gens: map<Symbol, Node>, among: set<Node>, g: Node): set<Node>
  {
    set d | d in among && Linked(gens, d) && Target(gens, d) == g
  }

  /** The link `n` adds to `g`, if any. */
  function LinkTo(gens: map<Symbol, Node>, n: Node, g: Node): set<Node>
  {
    if Linked(gens, n) && Target(gens, n) == g then {n} else {}
  }

  lemma IncomingAdd(gens: map<Symbol, Node>, done: set<Node>, n: Node, g: Node)
    ensures Incoming(gens, done + {n}, g) == Incoming(gens, done, g) + LinkTo(gens, n, g)
  {
  }

  lemma IncomingUnion(gens: map<Symbol, Node>, a: set<Node>, b: set<Node>)
    ensures forall g :: Incoming(gens, a + b, g) == Incoming(gens, a, g) + Incoming(gens, b, g)
  {
  }

  /** The stages registered under the keys `ks`, in a map of stages. */
  function Stages<K>(m: map<K, Node>, ks: seq<K>): set<Node>
  {
    if ks == [] then {}
    else
      var k := ks[|ks| - 1];
      Stages(m, ks[..|ks| - 1]) + (if k in m then {m[k]} else {})
  }

  /** Keys that name every entry of the map give every stage of it. */
  lemma {:induction false} StagesCover<K>(m: map<K, Node>, ks: seq<K>)
    requires forall k :: k in m ==> k in ks
    ensures Stages(m, ks) == m.Values
  {
    StagesWithin(m, ks);
    forall n | n in m.Values ensures n in Stages(m, ks) {
      var k :| k in m && m[k] == n;
      var i :| 0 <= i < |ks| && ks[i] == k;
      StagesHas(m, ks, i);
    }
  }

  lemma {:induction false} StagesWithin<K>(m: map<K, Node>, ks: seq<K>)
    ensures Stages(m, ks) <= m.Values
  {
    if ks != [] {
      StagesWithin(m, ks[..|ks| - 1]);
    }
  }

  lemma {:induction false} StagesHas<K>(m: map<K, Node>, ks: seq<K>, i: nat)
    requires i < |ks| && ks[i] in m
    ensures m[ks[i]] in Stages(m, ks)
  {
    if i < |ks| - 1 {
      StagesHas(m, ks[..|ks| - 1], i);
    }
  }

  /** One more key in registration order: its stage joins the stages, and joins the roots when it has no upstream. */
  lemma StepKey<K>(m: map<K, Node>, order: seq<K>, i: nat)
    requires i < |order| && order[i] in m
    ensures Stages(m, order[..i + 1]) == Stages(m, order[..i]) + {m[order[i]]}
  {
    assert order[..i + 1][..i] == order[..i];
  }

  lemma StepRoot(gens: map<Symbol, Node>, order: seq<Symbol>, i: nat)
    requires i < |order| && order[i] in gens
    ensures RootsAmong(gens, order[..i + 1]) ==
            RootsAmong(gens, order[..i]) + (if gens[order[i]].upstreamSignature.None? then [gens[order[i]]] else [])
  {
    assert order[..i + 1][..i] == order[..i];
  }

  /**
   * The links of `nodes` after the stages in `done` have been visited, given
   * the links `up0` and `down0` they had before: a visited stage whose
   * upstream signature names a generation of `gens` points at it and is
   * among its downstreams; nothing else has changed.
   */
  ghost predicate Linking(gens: map<Symbol, Node>, nodes: set<Node>, done: set<Node>,
                          up0: map<Node, Node?>, down0: map<Node, set<Node>>)
    reads nodes
  {
    && (forall d :: d in nodes ==> d in up0 && d in down0)
    && (forall d :: d in nodes ==>
          d.upstream == if d in done && Linked(gens, d) then Target(gens, d) else up0[d])
    && (forall g :: g in nodes ==> g.downstreams == down0[g] + Incoming(gens, done, g))
  }

  /**
   * One pass of either `ResolveHierarchy` loop: `TryGetValue` on the upstream
   * signature, and `SetUpstream` when it finds a generation.
   */
  method LinkOne(gens: map<Symbol, Node>, n: Node,
                 ghost nodes: set<Node>, ghost done: set<Node>, ghost up0: map<Node, Node?>, ghost down0: map<Node, set<Node>>)
    requires n in nodes && gens.Values <= nodes
    requires Linking(gens, nodes, done, up0, down0)
    modifies nodes
    ensures Linking(gens, nodes, done + {n}, up0, down0)
  {
    match n.upstreamSignature
    case None =>
    case Some(u) =>
      if u in gens {
        var up := gens[u];
        n.SetUpstream(up);
      }
    forall g | g in nodes
      ensures g.downstreams == down0[g] + Incoming(gens, done + {n}, g)
    {
      assert old(g.downstreams) == down0[g] + Incoming(gens, done, g);
      IncomingAdd(gens, done, n, g);
    }
  }

  /** `LinqGenSyntaxReceiver`. */
  class LinqGenSyntaxReceiver {
    var log: seq<Event>
    var generations: map<Symbol, Node>
    var generationOrder: seq<Symbol>
    var evaluations: map<EvaluationKey, Node>
    var evaluationOrder: seq<EvaluationKey>
    var idCounter: nat
    var roots: seq<Node>

    /** The bookkeeping the fields hold. */
    function View(): Book
      reads this
    {
      Book(Entries(generations), generationOrder, Entries(evaluations), evaluationOrder, idCounter, log)
    }

    predicate Valid()
      reads this
    {
      ValidBook(View())
    }

    /** The maps and their orders agree, and each map holds stages of its own kind. */
    predicate Indexed()
      reads this
    {
      && (forall k :: k in generationOrder ==> k in generations)
      && (forall k :: k in generations ==> k in generationOrder)
      && (forall k :: k in evaluationOrder ==> k in evaluations)
      && (forall k :: k in evaluations ==> k in evaluationOrder)
      && (forall k :: k in generations ==> generations[k].info.GenerationInfo?)
      && (forall k :: k in evaluations ==> evaluations[k].info.EvaluationInfo?)
    }

    lemma ValidIsIndexed()
      requires Valid()
      ensures Indexed()
    {
      var b := View();
      forall k | k in generations ensures generations[k].info.GenerationInfo? {
        assert b.generations[k] == generations[k].AsEntry();
      }
      forall k | k in evaluations ensures evaluations[k].info.EvaluationInfo? {
        assert b.evaluations[k] == evaluations[k].AsEntry();
      }
    }

    /** Every registered stage. */
    function Nodes(): set<Node>
      reads this
    {
      generations.Values + evaluations.Values
    }

    constructor()
      ensures View() == Book(map[], [], map[], [], 0, []) && roots == []
      ensures Valid()
    {
      log := [];
      generations := map[];
      generationOrder := [];
      evaluations := map[];
      evaluationOrder := [];
      idCounter := 0;
      roots := [];
    }

    /** The success path of `AddGeneration`: log the line, then store a new unlinked node in the tables. */
    method StoreGeneration(e: Expression, ins: Factory.Instruction) returns (n: Node)
      modifies this
      ensures fresh(n) && n.upstream == null && n.downstreams == {}
      ensures n.info == GenerationInfo(idCounter, ins) && n.upstreamSignature == e.upstreamSignature
      ensures log == old(log) + [GenerationLine(ins, e.signature)]
      ensures generations == old(generations)[e.signature := n]
      ensures generationOrder == old(generationOrder) + [e.signature]
      ensures idCounter == old(idCounter) && roots == old(roots)
      ensures evaluations == old(evaluations) && evaluationOrder == old(evaluationOrder)
    {
      log := log + [GenerationLine(ins, e.signature)];
      n := new Node(GenerationInfo(idCounter, ins), e.upstreamSignature);
      generations := generations[e.signature := n];
      generationOrder := generationOrder + [e.signature];
    }

    /**
     * `AddGeneration`: the bookkeeping moves as `RegisterGeneration` says; a
     * stored stage is a new, unlinked node, and earlier nodes stay in place.
     * `threw` is the exception that escapes after the id was taken.
     */
    method AddGeneration(e: Expression) returns (threw: bool)
      requires Valid()
      modifies this
      ensures Valid()
      ensures View() == RegisterGeneration(old(View()), e)
      ensures threw == GenerationThrows(old(View()), e)
      ensures roots == old(roots) && evaluations == old(evaluations)
      ensures forall k :: k in old(generations) ==> k in generations && generations[k] == old(generations[k])
      ensures e.signature in generations && e.signature !in old(generations) ==>
                fresh(generations[e.signature]) && generations[e.signature].upstream == null &&
                generations[e.signature].downstreams == {}
    {
      ghost var b := View();
      if e.signature in generations {
        RegisterGenerationValid(b, e);
        return false;
      }
      idCounter := idCounter + 1;
      var created := Factory.CreateGeneration(e.call, idCounter);
      assert RegisterGeneration(b, e) == RecordGeneration(b, e, idCounter, created);
      label Stored:
      match created {
      case IndexOutOfRange =>
        threw := true;
        assert View() == RecordGeneration(b, e, idCounter, created);
      case NotSupported =>
        log := log + [GenerationFailedLine(e.signature)];
        threw := false;
        assert View() == RecordGeneration(b, e, idCounter, created);
      case Generation(ins) =>
        var n := StoreGeneration(e, ins);
        EntriesStore(old@Stored(generations), e.signature, n);
        threw := false;
        assert View() == RecordGeneration(b, e, idCounter, created);
      }
      RegisterGenerationValid(b, e);
    }

    /** The success path of `AddEvaluation`: log the line, then store a new unlinked node under the key. */
    method StoreEvaluation(e: Expression, key: EvaluationKey, kind: Factory.EvaluationKind) returns (n: Node)
      modifies this
      ensures fresh(n) && n.upstream == null && n.downstreams == {}
      ensures n.info == EvaluationInfo(kind) && n.upstreamSignature == e.upstreamSignature
      ensures log == old(log) + [EvaluationLine(kind, e.stubMethod)]
      ensures evaluations == old(evaluations)[key := n]
      ensures evaluationOrder == old(evaluationOrder) + [key]
      ensures idCounter == old(idCounter) && roots == old(roots)
      ensures generations == old(generations) && generationOrder == old(generationOrder)
    {
      log := log + [EvaluationLine(kind, e.stubMethod)];
      n := new Node(EvaluationInfo(kind), e.upstreamSignature);
      evaluations := evaluations[key := n];
      evaluationOrder := evaluationOrder + [key];
    }

    /**
     * `AddEvaluation`: the bookkeeping moves as `RegisterEvaluation` says; a
     * stored evaluation is a new, unlinked node, and earlier nodes stay in place.
     * The null-forgiving reads of the upstream signature and the input element
     * are the caller's promise that both are present.
     */
    method AddEvaluation(e: Expression)
      requires Valid() && e.upstreamSignature.Some?
      modifies this
      ensures Valid()
      ensures View() == RegisterEvaluation(old(View()), e)
      ensures roots == old(roots) && generations == old(generations)
      ensures forall k :: k in old(evaluations) ==> k in evaluations && evaluations[k] == old(evaluations[k])
      ensures KeyOf(e) in evaluations && KeyOf(e) !in old(evaluations) ==>
                fresh(evaluations[KeyOf(e)]) && evaluations[KeyOf(e)].upstream == null &&
                evaluations[KeyOf(e)].downstreams == {}
    {
      ghost var b := View();
      RegisterEvaluationValid(b, e);
      var key := EvaluationKey(e.upstreamSignature.value, e.stubMethod, e.inputElement);
      if key in evaluations {
        return;
      }
      idCounter := idCounter + 1;
      match Factory.CreateEvaluation(e.call)
      case None =>
        log := log + [EvaluationFailedLine(key.upstream, e.stubMethod)];
      case Some(kind) =>
        ghost var before := evaluations;
        var n := StoreEvaluation(e, key, kind);
        EntriesStore(before, key, n);
        assert View() == RegisterEvaluation(b, e);
    }

    /**
     * `InitPredefinedGenerations`: the `Range`, `Repeat` and `Empty` sources,
     * given as the expressions `LinqGenExpression.CreatePredefined` builds for
     * them, are registered in that order.
     */
    method InitPredefinedGenerations(range: Expression, repeat: Expression, empty: Expression) returns (threw: bool)
      requires Valid()
      modifies this
      ensures Valid()
      ensures (View(), threw) == RegisterPredefined(old(View()), [range, repeat, empty])
      ensures roots == old(roots) && evaluations == old(evaluations)
    {
      ghost var es := [range, repeat, empty];
      assert es[1..] == [repeat, empty] && es[1..][1..] == [empty] && es[1..][1..][1..] == [];
      ghost var b0 := View();
      threw := AddGeneration(range);
      if threw {
        return;
      }
      ghost var b1 := View();
      threw := AddGeneration(repeat);
      if threw {
        return;
      }
      ghost var b2 := View();
      threw := AddGeneration(empty);
      assert RegisterPredefined(b2, [empty]) == (View(), threw);
    }

    /**
     * `ResolveHierarchy`: generations without an upstream signature become
     * roots, in registration order; every stage, generation or evaluation,
     * whose upstream signature is a registered generation is linked to it
     * both ways; any other stage is left as it was. Evaluations never become
     * roots, and the bookkeeping does not change.
     */
    method ResolveHierarchy()
      requires Indexed()
      modifies this, Nodes()
      ensures Indexed() && View() == old(View())
      ensures generations == old(generations) && evaluations == old(evaluations)
      ensures roots == old(roots) + RootsAmong(generations, generationOrder)
      ensures forall n :: n in evaluations.Values ==> n !in roots[|old(roots)|..]
      ensures forall d :: d in Nodes() ==>
                d.upstream == if Linked(generations, d) then Target(generations, d) else old(d.upstream)
      ensures forall g :: g in Nodes() ==> g.downstreams == old(g.downstreams) + Incoming(generations, Nodes(), g)
    {
      ghost var nodes := Nodes();
      var found := LinkGenerations(generations, generationOrder, nodes);
      roots := roots + found;
      LinkEvaluations(generations, evaluations, evaluationOrder, nodes);
      IncomingUnion(generations, generations.Values, evaluations.Values);
      forall r | r in RootsAmong(generations, generationOrder)
        ensures r.info.GenerationInfo?
      {
        RootsSound(generations, generationOrder, r);
      }
      assert roots[|old(roots)|..] == RootsAmong(generations, generationOrder);
    }
  }

  /**
   * The first loop of `ResolveHierarchy`: over the generations in registration
   * order, a generation without an upstream signature is found to be a root,
   * and one whose upstream is registered is linked to it.
   */
  method LinkGenerations(gens: map<Symbol, Node>, order: seq<Symbol>, ghost nodes: set<Node>)
      returns (found: seq<Node>)
    requires forall k :: k in order ==> k in gens
    requires forall k :: k in gens ==> k in order
    requires gens.Values <= nodes
    modifies nodes
    ensures found == RootsAmong(gens, order)
    ensures forall d :: d in nodes ==>
              d.upstream == if d in gens.Values && Linked(gens, d) then Target(gens, d) else old(d.upstream)
    ensures forall g :: g in nodes ==> g.downstreams == old(g.downstreams) + Incoming(gens, gens.Values, g)
  {
    ghost var up0 := map d | d in nodes :: d.upstream;
    ghost var down0 := map d | d in nodes :: d.downstreams;
    ghost var done: set<Node> := {};
    found := [];
    var i := 0;
    while i < |order|
      invariant 0 <= i <= |order|
      invariant found == RootsAmong(gens, order[..i])
      invariant done == Stages(gens, order[..i])
      invariant Linking(gens, nodes, done, up0, down0)
    {
      var n := gens[order[i]];
      StepKey(gens, order, i);
      StepRoot(gens, order, i);
      if n.upstreamSignature.None? {
        found := found + [n];
      }
      LinkOne(gens, n, nodes, done, up0, down0);
      done := done + {n};
      i := i + 1;
    }
    assert order[..i] == order;
    StagesCover(gens, order);
  }

  /**
   * The second loop of `ResolveHierarchy`: over the evaluations in registration
   * order, one whose upstream is a registered generation is linked to it.
   */
  method LinkEvaluations(gens: map<Symbol, Node>, evals: map<EvaluationKey, Node>, order: seq<EvaluationKey>,
                         ghost nodes: set<Node>)
    requires forall k :: k in order ==> k in evals
    requires forall k :: k in evals ==> k in order
    requires evals.Values <= nodes && gens.Values <= nodes
    modifies nodes
    ensures forall d :: d in nodes ==>
              d.upstream == if d in evals.Values && Linked(gens, d) then Target(gens, d) else old(d.upstream)
    ensures forall g :: g in nodes ==> g.downstreams == old(g.downstreams) + Incoming(gens, evals.Values, g)
  {
    ghost var up0 := map d | d in nodes :: d.upstream;
    ghost var down0 := map d | d in nodes :: d.downstreams;
    ghost var done: set<Node> := {};
    var j := 0;
    while j < |order|
      invariant 0 <= j <= |order|
      invariant done == Stages(evals, order[..j])
      invariant Linking(gens, nodes, done, up0, down0)
    {
      var n := evals[order[j]];
      StepKey(evals, order, j);
      LinkOne(gens, n, nodes, done, up0, down0);
      done := done + {n};
      j := j + 1;
    }
    assert order[..j] == order;
    StagesCover(evals, order);
  }
}
