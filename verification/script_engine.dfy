/** The bookkeeping of `Mango::ScriptEngine`: the table of Python entity
    objects, the deferred-deletion list, the two collision queues and the
    order in which script callbacks are dispatched.

    Python objects are named by the entity id they wrap, and every callback
    the engine makes into Python is recorded in a trace instead of run. */
module ScriptEngine {
  import opened Wrappers

  /** `Mango::GUID`; id 0 is `GUID::Empty()`. */
  type Guid = nat

  const EmptyGuid: Guid := 0

  /** What the table holds for an id: an instance of the entity's script class,
      or a plain `MangoEngine.Entity` the engine created on demand. */
  datatype PyEntity = Scripted(script: string) | Placeholder

  /** One call from the engine into Python. */
  datatype Call =
    | NoArgs(target: Guid, callee: string)
    | WithArg(target: Guid, callee: string, arg: Guid)

  datatype Engine = Engine(
    entities: map<Guid, PyEntity>,
    marked: seq<Guid>,
    beginQueue: seq<(Guid, Guid)>,
    endQueue: seq<(Guid, Guid)>,
    destroyRequests: seq<Guid>,
    trace: seq<Call>)

  predicate NoDuplicates(s: seq<Guid>) {
    forall a, b :: 0 <= a < b < |s| ==> s[a] != s[b]
  }

  /** `order` is one traversal of an `unordered_map` with key set `keys`:
      every key exactly once, in some order the model does not fix. */
  predicate Enumerates(order: seq<Guid>, keys: set<Guid>) {
    NoDuplicates(order) && (set k | k in order) == keys
  }

  // ---------------------------------------------------------------------------
  // Collision queues

  /** `OnCollisionBegin`: make sure both ids have a Python object (a placeholder
      when the entity has no script), then queue the pair. Nothing is called yet. */
  function OnCollisionBegin(e: Engine, first: Guid, second: Guid): (r: Engine)
    ensures first in r.entities && second in r.entities
    ensures forall id :: id in e.entities ==> id in r.entities && r.entities[id] == e.entities[id]
    ensures forall id :: id in r.entities && id !in e.entities ==> id in {first, second} && r.entities[id] == Placeholder
    ensures r.beginQueue == e.beginQueue + [(first, second)]
    ensures r.(entities := e.entities, beginQueue := e.beginQueue) == e
  {
    var withFirst := if first in e.entities then e.entities else e.entities[first := Placeholder];
    var withBoth := if second in withFirst then withFirst else withFirst[second := Placeholder];
    e.(entities := withBoth, beginQueue := e.beginQueue + [(first, second)])
  }

  /** `OnCollisionEnd`: only queues the pair; no Python object is created. */
  function OnCollisionEnd(e: Engine, first: Guid, second: Guid): (r: Engine)
    ensures r.endQueue == e.endQueue + [(first, second)]
    ensures r.(endQueue := e.endQueue) == e
  {
    e.(endQueue := e.endQueue + [(first, second)])
  }

  /** `CallOnCollisionBegin` / `CallOnCollisionEnd`: call `callee` on the first
      object of every queued pair with the second as argument, in arrival order.
      An id with no object reads a null pointer out of the table, which the model
      reports as a failure. */
  function Deliver(entities: map<Guid, PyEntity>, queue: seq<(Guid, Guid)>, callee: string): (r: Result<seq<Call>>)
    ensures r.Success? <==> forall k :: 0 <= k < |queue| ==> queue[k].0 in entities && queue[k].1 in entities
    ensures r.Success? ==>
      && |r.value| == |queue|
      && forall k :: 0 <= k < |queue| ==> r.value[k] == WithArg(queue[k].0, callee, queue[k].1)
    decreases |queue|
  {
    if |queue| == 0 then Success([])
    else if queue[0].0 !in entities || queue[0].1 !in entities then Failure("null entity in collision queue")
    else
      var rest := Deliver(entities, queue[1..], callee);
      assert forall k :: 1 <= k < |queue| ==> queue[k] == queue[1..][k - 1];
      if rest.Failure? then rest
      else Success([WithArg(queue[0].0, callee, queue[0].1)] + rest.value)
  }

  // ---------------------------------------------------------------------------
  // Deferred deletion

  /** `DeletePyEntity`: drop the object of `id`; an absent id is left absent. */
  function DeletePyEntity(entities: map<Guid, PyEntity>, id: Guid): (r: map<Guid, PyEntity>)
    ensures id !in r
    ensures forall k :: k != id ==> (k in r <==> k in entities)
    ensures forall k :: k in r ==> r[k] == entities[k]
  {
    entities - {id}
  }

  /** Deleting every marked id in turn. */
  function DeleteAll(entities: map<Guid, PyEntity>, marked: seq<Guid>): (r: map<Guid, PyEntity>)
    ensures forall k :: k in r <==> k in entities && k !in marked
    ensures forall k :: k in r ==> r[k] == entities[k]
    decreases |marked|
  {
    if |marked| == 0 then entities
    else DeleteAll(DeletePyEntity(entities, marked[0]), marked[1..])
  }

  /** The prologue of `OnUpdate` and `OnFixedUpdate`: erase every marked id and
      clear the list. */
  function Drain(e: Engine): (r: Engine)
    ensures r.marked == []
    ensures r.entities.Keys == e.entities.Keys - (set id | id in e.marked)
    ensures forall k :: k in r.entities ==> r.entities[k] == e.entities[k]
    ensures r.(entities := e.entities, marked := e.marked) == e
  {
    var entities := DeleteAll(e.entities, e.marked);
    assert entities.Keys == e.entities.Keys - (set id | id in e.marked);
    e.(entities := entities, marked := [])
  }

  /** The argument of `DestroyEntity` as Python passed it. */
  datatype PyArg = EntityArg(id: Guid) | OtherArg

  /** `HandleDestroyEntityEvent`: a non-entity argument and an already-marked id
      are ignored; otherwise the scene's destroy handler runs once and the id is
      marked for deletion at the next update. */
  function HandleDestroyEntityEvent(e: Engine, arg: PyArg): (r: Engine)
    ensures arg.OtherArg? ==> r == e
    ensures arg.EntityArg? && arg.id in e.marked ==> r == e
    ensures arg.EntityArg? && arg.id !in e.marked ==>
      r == e.(marked := e.marked + [arg.id], destroyRequests := e.destroyRequests + [arg.id])
  {
    match arg
    case OtherArg => e
    case EntityArg(id) =>
      if id in e.marked then e
      else e.(marked := e.marked + [id], destroyRequests := e.destroyRequests + [id])
  }

  /** The mark list never holds an id twice, however many destroy events arrive. */
  lemma DestroyKeepsMarksUnique(e: Engine, arg: PyArg)
    requires NoDuplicates(e.marked)
    ensures NoDuplicates(HandleDestroyEntityEvent(e, arg).marked)
  {
  }

  /** Destroying the same entity twice is the same as destroying it once. */
  lemma DestroyIdempotent(e: Engine, arg: PyArg)
    ensures var once := HandleDestroyEntityEvent(e, arg);
      HandleDestroyEntityEvent(once, arg) == once
  {
  }

  // ---------------------------------------------------------------------------
  // Dispatch

  /** What one script callback asks of the engine while it runs: the
      `DestroyEntity` requests it makes, and the contacts that end because of
      them. The scene's destroy handler destroys the Box2D body, Box2D reports
      each of its contacts to `EndContact`, and that queues the pair through
      `OnCollisionEnd`. */
  datatype Reaction = Reaction(destroys: seq<PyArg>, ends: seq<(Guid, Guid)>)

  /** The scripts' behaviour: the reaction of each call. */
  type Scripts = Call -> Reaction

  /** The ids a sequence of destroy arguments names. */
  function DestroyedIds(args: seq<PyArg>): set<Guid>
    decreases |args|
  {
    if |args| == 0 then {}
    else (if args[0].EntityArg? then {args[0].id} else {}) + DestroyedIds(args[1..])
  }

  /** The ids the calls ask to destroy. */
  function DestroyedBy(calls: seq<Call>, scripts: Scripts): set<Guid>
    decreases |calls|
  {
    if |calls| == 0 then {} else DestroyedIds(scripts(calls[0]).destroys) + DestroyedBy(calls[1..], scripts)
  }

  /** The collision ends the calls cause, in the order they happen. */
  function Issued(calls: seq<Call>, scripts: Scripts): seq<(Guid, Guid)>
    decreases |calls|
  {
    if |calls| == 0 then [] else scripts(calls[0]).ends + Issued(calls[1..], scripts)
  }

  /** The ids of a mark list. */
  function Marks(s: seq<Guid>): set<Guid> {
    set id | id in s
  }

  /** From `e` to `r` the mark list only grows, by ids not marked before when
      it had no duplicates, and now marks `ids` as well; exactly the new marks
      were forwarded to the scene's destroy handler, in order. */
  predicate MarksGrow(e: Engine, r: Engine, ids: set<Guid>) {
    && |e.marked| <= |r.marked| && r.marked[..|e.marked|] == e.marked
    && r.destroyRequests == e.destroyRequests + r.marked[|e.marked|..]
    && Marks(r.marked) == Marks(e.marked) + ids
    && (NoDuplicates(e.marked) ==> NoDuplicates(r.marked))
  }

  lemma MarksGrowTrans(a: Engine, b: Engine, c: Engine, ab: set<Guid>, bc: set<Guid>)
    requires MarksGrow(a, b, ab) && MarksGrow(b, c, bc)
    ensures MarksGrow(a, c, ab + bc)
  {
    PrefixTrans(a.marked, b.marked, c.marked);
  }

  /** Prefixes compose, and the part added over both steps is the two added
      parts in order. */
  lemma PrefixTrans(x: seq<Guid>, y: seq<Guid>, z: seq<Guid>)
    requires |x| <= |y| <= |z| && y[..|x|] == x && z[..|y|] == y
    ensures z[..|x|] == x && z[|x|..] == y[|x|..] + z[|y|..]
  {
    assert z[..|x|] == z[..|y|][..|x|];
    assert z[|x|..] == z[|x|..|y|] + z[|y|..];
  }

  /** The ids one destroy argument names. */
  function ArgIds(arg: PyArg): set<Guid> {
    if arg.EntityArg? then {arg.id} else {}
  }

  /** `HandleDestroyEntityEvent` marks what its argument names. */
  lemma DestroyMarks(e: Engine, arg: PyArg)
    ensures MarksGrow(e, HandleDestroyEntityEvent(e, arg), ArgIds(arg))
  {
    var r := HandleDestroyEntityEvent(e, arg);
    assert r.marked[..|e.marked|] == e.marked;
  }

  /** The destroy requests of one callback, handled in order. Each marks a new
      id once and forwards it once to the scene. */
  function HandleDestroys(e: Engine, args: seq<PyArg>): (r: Engine)
    ensures r.(marked := e.marked, destroyRequests := e.destroyRequests) == e
    ensures MarksGrow(e, r, DestroyedIds(args))
    decreases |args|
  {
    if |args| == 0 then
      MarksGrowRefl(e);
      e
    else
      var one := HandleDestroyEntityEvent(e, args[0]);
      DestroyMarks(e, args[0]);
      var r := HandleDestroys(one, args[1..]);
      MarksGrowTrans(e, one, r, ArgIds(args[0]), DestroyedIds(args[1..]));
      r
  }

  lemma AppendFirst(p: seq<Call>, s: seq<Call>)
    requires |s| > 0
    ensures p + s == p + [s[0]] + s[1..]
  {
    assert s == [s[0]] + s[1..];
  }

  lemma AppendAssoc<T>(a: seq<T>, b: seq<T>, c: seq<T>)
    ensures (a + b) + c == a + (b + c)
  {
  }

  /** Nothing marked is marking nothing. */
  lemma MarksGrowRefl(e: Engine)
    ensures MarksGrow(e, e, {})
  {
    assert e.marked[..|e.marked|] == e.marked && e.marked[|e.marked|..] == [];
  }

  /** One call: it is recorded, its destroy requests are handled and the
      contacts it ends are queued. */
  function Step(e: Engine, c: Call, scripts: Scripts): (r: Engine)
    ensures r.entities == e.entities && r.beginQueue == e.beginQueue
    ensures r.trace == e.trace + [c]
    ensures r.endQueue == e.endQueue + scripts(c).ends
    ensures MarksGrow(e, r, DestroyedIds(scripts(c).destroys))
  {
    var destroyed := HandleDestroys(e.(trace := e.trace + [c]), scripts(c).destroys);
    destroyed.(endQueue := destroyed.endQueue + scripts(c).ends)
  }

  /** The calls made one after another. No call changes the object table or
      the begin queue. */
  function Dispatch(e: Engine, calls: seq<Call>, scripts: Scripts): (r: Engine)
    ensures r.entities == e.entities && r.beginQueue == e.beginQueue
    ensures r.trace == e.trace + calls
    ensures r.endQueue == e.endQueue + Issued(calls, scripts)
    ensures MarksGrow(e, r, DestroyedBy(calls, scripts))
    decreases |calls|
  {
    if |calls| == 0 then
      MarksGrowRefl(e);
      e
    else
      var one := Step(e, calls[0], scripts);
      var r := Dispatch(one, calls[1..], scripts);
      AppendFirst(e.trace, calls);
      AppendAssoc(e.endQueue, scripts(calls[0]).ends, Issued(calls[1..], scripts));
      MarksGrowTrans(e, one, r, DestroyedIds(scripts(calls[0]).destroys), DestroyedBy(calls[1..], scripts));
      r
  }

  /** Calls of `callee` with no argument on every object, in traversal order. */
  function CallEach(order: seq<Guid>, callee: string): (calls: seq<Call>)
    ensures |calls| == |order|
    ensures forall k :: 0 <= k < |order| ==> calls[k] == NoArgs(order[k], callee)
    decreases |order|
  {
    if |order| == 0 then [] else [NoArgs(order[0], callee)] + CallEach(order[1..], callee)
  }

  /** `OnUpdate`: drain the deletions, then call `OnUpdate` on every remaining
      object. What the calls destroy is marked for the next update, and the
      contacts they end wait in the end queue for the next fixed update. */
  function OnUpdate(e: Engine, order: seq<Guid>, scripts: Scripts): (r: Engine)
    requires Enumerates(order, e.entities.Keys - (set id | id in e.marked))
    ensures r.entities.Keys == e.entities.Keys - (set id | id in e.marked)
    ensures forall k :: k in r.entities ==> r.entities[k] == e.entities[k]
    ensures |r.trace| == |e.trace| + |order| && r.trace[..|e.trace|] == e.trace
    ensures forall k :: 0 <= k < |order| ==> r.trace[|e.trace| + k] == NoArgs(order[k], "OnUpdate")
    ensures Marks(r.marked) == DestroyedBy(r.trace[|e.trace|..], scripts) && NoDuplicates(r.marked)
    ensures r.destroyRequests == e.destroyRequests + r.marked
    ensures r.beginQueue == e.beginQueue && r.endQueue == e.endQueue + Issued(r.trace[|e.trace|..], scripts)
  {
    var calls := CallEach(order, "OnUpdate");
    var d := Drain(e);
    var r := Dispatch(d, calls, scripts);
    assert r.trace[|e.trace|..] == calls;
    assert r.marked[|d.marked|..] == r.marked;
    r
  }

  /** `OnFixedUpdate`: drain the deletions, call `OnFixedUpdate` on every
      remaining object, deliver the queued collision begins, then the queued
      ends (those the earlier callbacks caused included), and empty both
      queues. Ends caused during the end delivery are cleared unseen. */
  function OnFixedUpdate(e: Engine, order: seq<Guid>, scripts: Scripts): (r: Result<Engine>)
    requires Enumerates(order, e.entities.Keys - (set id | id in e.marked))
    ensures r.Success? ==> r.value.beginQueue == [] && r.value.endQueue == []
    ensures r.Success? ==> r.value.entities == Drain(e).entities
  {
    var d := Drain(e);
    var fixed := Dispatch(d, CallEach(order, "OnFixedUpdate"), scripts);
    match Deliver(fixed.entities, fixed.beginQueue, "OnCollisionBegin")
    case Failure(err) => Failure(err)
    case Success(begins) =>
      var begun := Dispatch(fixed, begins, scripts);
      match Deliver(begun.entities, begun.endQueue, "OnCollisionEnd")
      case Failure(err) => Failure(err)
      case Success(ends) =>
        var ended := Dispatch(begun, ends, scripts);
        Success(ended.(beginQueue := [], endQueue := []))
  }

  /** Every id of every queued pair has an object in `entities`. */
  predicate Deliverable(entities: map<Guid, PyEntity>, queue: seq<(Guid, Guid)>) {
    forall k :: 0 <= k < |queue| ==> queue[k].0 in entities && queue[k].1 in entities
  }

  /** The calls delivering `queue`, as the reference the dispatch is compared with. */
  function Deliveries(queue: seq<(Guid, Guid)>, callee: string): seq<Call> {
    seq(|queue|, k requires 0 <= k < |queue| => WithArg(queue[k].0, callee, queue[k].1))
  }

  /** The per-object calls of a fixed update over `order`. */
  function FixedCalls(order: seq<Guid>): seq<Call> {
    seq(|order|, k requires 0 <= k < |order| => NoArgs(order[k], "OnFixedUpdate"))
  }

  /** The end queue the end delivery walks: the ends queued before the update,
      then those the per-object calls and the begin callbacks caused. */
  function EndsToDeliver(e: Engine, order: seq<Guid>, scripts: Scripts): seq<(Guid, Guid)> {
    e.endQueue + Issued(FixedCalls(order), scripts) + Issued(Deliveries(e.beginQueue, "OnCollisionBegin"), scripts)
  }

  /** The state after the per-object calls and the begin delivery, which the
      end delivery starts from. */
  lemma BeforeEndDelivery(e: Engine, order: seq<Guid>, scripts: Scripts)
    requires Deliverable(Drain(e).entities, e.beginQueue)
    ensures var fixed := Dispatch(Drain(e), CallEach(order, "OnFixedUpdate"), scripts);
      && Deliver(fixed.entities, fixed.beginQueue, "OnCollisionBegin") == Success(Deliveries(e.beginQueue, "OnCollisionBegin"))
      && var begun := Dispatch(fixed, Deliveries(e.beginQueue, "OnCollisionBegin"), scripts);
         && begun.entities == Drain(e).entities
         && begun.endQueue == EndsToDeliver(e, order, scripts)
  {
    CallEachIsReference(order, "OnFixedUpdate");
    DeliverIsReference(Drain(e).entities, e.beginQueue, "OnCollisionBegin");
  }

  /** The fixed update fails when a queued begin pair names an entity whose
      object is gone after the deletions. */
  lemma BeginUndeliverableFails(e: Engine, order: seq<Guid>, scripts: Scripts)
    requires Enumerates(order, e.entities.Keys - (set id | id in e.marked))
    requires !Deliverable(Drain(e).entities, e.beginQueue)
    ensures OnFixedUpdate(e, order, scripts).Failure?
  {
    var fixed := Dispatch(Drain(e), CallEach(order, "OnFixedUpdate"), scripts);
    assert Deliver(fixed.entities, fixed.beginQueue, "OnCollisionBegin").Failure?;
  }

  /** With the begins deliverable, the fixed update fails when an end pair it
      walks names an entity whose object is gone. */
  lemma EndUndeliverableFails(e: Engine, order: seq<Guid>, scripts: Scripts)
    requires Enumerates(order, e.entities.Keys - (set id | id in e.marked))
    requires Deliverable(Drain(e).entities, e.beginQueue)
    requires !Deliverable(Drain(e).entities, EndsToDeliver(e, order, scripts))
    ensures OnFixedUpdate(e, order, scripts).Failure?
  {
    BeforeEndDelivery(e, order, scripts);
    var fixed := Dispatch(Drain(e), CallEach(order, "OnFixedUpdate"), scripts);
    var begun := Dispatch(fixed, Deliveries(e.beginQueue, "OnCollisionBegin"), scripts);
    assert Deliver(begun.entities, begun.endQueue, "OnCollisionEnd").Failure?;
  }

  /** The fixed update fails exactly when a pair it delivers names an entity
      whose object is gone after the deletions. */
  lemma FixedUpdateSucceeds(e: Engine, order: seq<Guid>, scripts: Scripts)
    requires Enumerates(order, e.entities.Keys - (set id | id in e.marked))
    ensures OnFixedUpdate(e, order, scripts).Success? <==>
      Deliverable(Drain(e).entities, e.beginQueue) && Deliverable(Drain(e).entities, EndsToDeliver(e, order, scripts))
  {
    if !Deliverable(Drain(e).entities, e.beginQueue) {
      BeginUndeliverableFails(e, order, scripts);
    } else if !Deliverable(Drain(e).entities, EndsToDeliver(e, order, scripts)) {
      EndUndeliverableFails(e, order, scripts);
    } else {
      FixedUpdateIsRounds(e, order, scripts);
    }
  }

  /** The fixed update's three rounds of calls made in turn, as when every
      delivery finds its objects. */
  function FixedRounds(e: Engine, order: seq<Guid>, scripts: Scripts): Engine {
    var fixed := Dispatch(Drain(e), FixedCalls(order), scripts);
    var begun := Dispatch(fixed, Deliveries(e.beginQueue, "OnCollisionBegin"), scripts);
    Dispatch(begun, Deliveries(EndsToDeliver(e, order, scripts), "OnCollisionEnd"), scripts)
  }

  /** A successful fixed update is its three rounds with both queues emptied. */
  lemma FixedUpdateIsRounds(e: Engine, order: seq<Guid>, scripts: Scripts)
    requires Enumerates(order, e.entities.Keys - (set id | id in e.marked))
    requires Deliverable(Drain(e).entities, e.beginQueue) && Deliverable(Drain(e).entities, EndsToDeliver(e, order, scripts))
    ensures OnFixedUpdate(e, order, scripts) == Success(FixedRounds(e, order, scripts).(beginQueue := [], endQueue := []))
  {
    BeforeEndDelivery(e, order, scripts);
    CallEachIsReference(order, "OnFixedUpdate");
    DeliverIsReference(Drain(e).entities, EndsToDeliver(e, order, scripts), "OnCollisionEnd");
  }

  /** After a fixed update both queues are empty, and the mark list holds, once
      each, every id the update's callbacks asked to destroy; exactly those
      were forwarded to the scene. */
  lemma FixedUpdateMarks(e: Engine, order: seq<Guid>, scripts: Scripts)
    requires Enumerates(order, e.entities.Keys - (set id | id in e.marked))
    requires OnFixedUpdate(e, order, scripts).Success?
    ensures var r := OnFixedUpdate(e, order, scripts).value;
      && r.beginQueue == [] && r.endQueue == [] && NoDuplicates(r.marked)
      && Marks(r.marked)
         == DestroyedBy(FixedCalls(order), scripts)
          + DestroyedBy(Deliveries(e.beginQueue, "OnCollisionBegin"), scripts)
          + DestroyedBy(Deliveries(EndsToDeliver(e, order, scripts), "OnCollisionEnd"), scripts)
      && r.destroyRequests == e.destroyRequests + r.marked
  {
    FixedUpdateSucceeds(e, order, scripts);
    FixedUpdateIsRounds(e, order, scripts);
    var d := Drain(e);
    var fixed := Dispatch(d, FixedCalls(order), scripts);
    var begun := Dispatch(fixed, Deliveries(e.beginQueue, "OnCollisionBegin"), scripts);
    var ended := Dispatch(begun, Deliveries(EndsToDeliver(e, order, scripts), "OnCollisionEnd"), scripts);
    assert ended == FixedRounds(e, order, scripts);
    var x := DestroyedBy(FixedCalls(order), scripts);
    var y := DestroyedBy(Deliveries(e.beginQueue, "OnCollisionBegin"), scripts);
    var z := DestroyedBy(Deliveries(EndsToDeliver(e, order, scripts), "OnCollisionEnd"), scripts);
    MarksGrowTrans(d, fixed, begun, x, y);
    MarksGrowTrans(d, begun, ended, x + y, z);
    assert d.marked == [] && ended.marked[0..] == ended.marked;
    assert NoDuplicates(d.marked);
  }

  /** Every object's `OnFixedUpdate` runs before any collision callback; the
      queued begins are delivered next, then the ends, each in arrival order,
      the ends caused by this update's callbacks after those queued before. */
  lemma FixedUpdateOrdering(e: Engine, order: seq<Guid>, scripts: Scripts)
    requires Enumerates(order, e.entities.Keys - (set id | id in e.marked))
    requires Deliverable(Drain(e).entities, e.beginQueue) && Deliverable(Drain(e).entities, EndsToDeliver(e, order, scripts))
    ensures OnFixedUpdate(e, order, scripts).Success?
    ensures OnFixedUpdate(e, order, scripts).value.trace
         == e.trace
          + FixedCalls(order)
          + Deliveries(e.beginQueue, "OnCollisionBegin")
          + Deliveries(EndsToDeliver(e, order, scripts), "OnCollisionEnd")
  {
    FixedUpdateIsRounds(e, order, scripts);
    BeforeEndDelivery(e, order, scripts);
  }

  /** Scripts that neither destroy entities nor end contacts. */
  ghost predicate Quiet(scripts: Scripts) {
    forall c: Call :: scripts(c) == Reaction([], [])
  }

  /** Calls that react with nothing destroy nothing and end nothing. */
  lemma {:induction false} QuietCallsIssueNothing(calls: seq<Call>, scripts: Scripts)
    requires forall k :: 0 <= k < |calls| ==> scripts(calls[k]) == Reaction([], [])
    ensures Issued(calls, scripts) == [] && DestroyedBy(calls, scripts) == {}
    decreases |calls|
  {
    if |calls| > 0 {
      assert forall k :: 0 <= k < |calls| - 1 ==> calls[1..][k] == calls[k + 1];
      QuietCallsIssueNothing(calls[1..], scripts);
    }
  }

  /** With quiet scripts a fixed update delivers exactly the queues it found and
      leaves nothing marked. */
  lemma QuietFixedUpdate(e: Engine, order: seq<Guid>, scripts: Scripts)
    requires Enumerates(order, e.entities.Keys - (set id | id in e.marked)) && Quiet(scripts)
    requires Deliverable(Drain(e).entities, e.beginQueue) && Deliverable(Drain(e).entities, e.endQueue)
    ensures OnFixedUpdate(e, order, scripts).Success?
    ensures var r := OnFixedUpdate(e, order, scripts).value;
      && r.marked == []
      && r.trace == e.trace + FixedCalls(order) + Deliveries(e.beginQueue, "OnCollisionBegin")
                            + Deliveries(e.endQueue, "OnCollisionEnd")
  {
    QuietCallsIssueNothing(FixedCalls(order), scripts);
    QuietCallsIssueNothing(Deliveries(e.beginQueue, "OnCollisionBegin"), scripts);
    assert EndsToDeliver(e, order, scripts) == e.endQueue;
    QuietCallsIssueNothing(Deliveries(e.endQueue, "OnCollisionEnd"), scripts);
    FixedUpdateOrdering(e, order, scripts);
    FixedUpdateMarks(e, order, scripts);
    MarksEmpty(OnFixedUpdate(e, order, scripts).value.marked);
  }

  lemma MarksEmpty(s: seq<Guid>)
    ensures Marks(s) == {} <==> s == []
  {
    if s != [] {
      assert s[0] in Marks(s);
    }
  }

  /** The rounds of `DestroyOnBeginDeliversEnd`: quiet per-object calls, one
      begin whose callback destroys the other entity and ends the contact. */
  lemma OneBeginRounds(e: Engine, order: seq<Guid>, scripts: Scripts, first: Guid, second: Guid)
    requires e.beginQueue == [(first, second)] && e.endQueue == []
    requires forall k :: 0 <= k < |order| ==> scripts(NoArgs(order[k], "OnFixedUpdate")) == Reaction([], [])
    requires scripts(WithArg(first, "OnCollisionBegin", second)) == Reaction([EntityArg(second)], [(first, second)])
    ensures Deliveries(e.beginQueue, "OnCollisionBegin") == [WithArg(first, "OnCollisionBegin", second)]
    ensures EndsToDeliver(e, order, scripts) == [(first, second)]
    ensures Deliveries(EndsToDeliver(e, order, scripts), "OnCollisionEnd") == [WithArg(first, "OnCollisionEnd", second)]
    ensures second in DestroyedBy(Deliveries(e.beginQueue, "OnCollisionBegin"), scripts)
  {
    QuietCallsIssueNothing(FixedCalls(order), scripts);
    var begins := Deliveries(e.beginQueue, "OnCollisionBegin");
    assert begins == [WithArg(first, "OnCollisionBegin", second)];
    assert Issued(begins, scripts) == [(first, second)];
    assert DestroyedIds([EntityArg(second)]) == {second};
  }

  /** A callback that destroys the entity it collided with during the begin
      delivery queues the contact's end, which is delivered in the same fixed
      update, right after the begin, to objects that are still in the table. */
  lemma DestroyOnBeginDeliversEnd(e: Engine, order: seq<Guid>, scripts: Scripts, first: Guid, second: Guid)
    requires Enumerates(order, e.entities.Keys - (set id | id in e.marked))
    requires e.beginQueue == [(first, second)] && e.endQueue == []
    requires first in Drain(e).entities && second in Drain(e).entities
    requires forall k :: 0 <= k < |order| ==> scripts(NoArgs(order[k], "OnFixedUpdate")) == Reaction([], [])
    requires scripts(WithArg(first, "OnCollisionBegin", second)) == Reaction([EntityArg(second)], [(first, second)])
    ensures OnFixedUpdate(e, order, scripts).Success?
    ensures OnFixedUpdate(e, order, scripts).value.trace
         == e.trace + FixedCalls(order)
          + [WithArg(first, "OnCollisionBegin", second)] + [WithArg(first, "OnCollisionEnd", second)]
  {
    OneBeginRounds(e, order, scripts, first, second);
    FixedUpdateOrdering(e, order, scripts);
  }

  /** In the same situation the destroyed entity is marked, so its object
      leaves the table at the next update. */
  lemma DestroyOnBeginMarks(e: Engine, order: seq<Guid>, scripts: Scripts, first: Guid, second: Guid)
    requires Enumerates(order, e.entities.Keys - (set id | id in e.marked))
    requires e.beginQueue == [(first, second)] && e.endQueue == []
    requires first in Drain(e).entities && second in Drain(e).entities
    requires forall k :: 0 <= k < |order| ==> scripts(NoArgs(order[k], "OnFixedUpdate")) == Reaction([], [])
    requires scripts(WithArg(first, "OnCollisionBegin", second)) == Reaction([EntityArg(second)], [(first, second)])
    ensures OnFixedUpdate(e, order, scripts).Success?
    ensures second in OnFixedUpdate(e, order, scripts).value.marked
  {
    OneBeginRounds(e, order, scripts, first, second);
    FixedUpdateSucceeds(e, order, scripts);
    FixedUpdateMarks(e, order, scripts);
  }

  lemma CallEachIsReference(order: seq<Guid>, callee: string)
    ensures CallEach(order, callee) == seq(|order|, k requires 0 <= k < |order| => NoArgs(order[k], callee))
  {
  }

  lemma DeliverIsReference(entities: map<Guid, PyEntity>, queue: seq<(Guid, Guid)>, callee: string)
    requires Deliverable(entities, queue)
    ensures Deliver(entities, queue, callee) == Success(Deliveries(queue, callee))
  {
    var d := Deliver(entities, queue, callee);
    var expected := Deliveries(queue, callee);
    assert |d.value| == |expected|;
    assert forall k :: 0 <= k < |queue| ==> d.value[k] == expected[k];
    assert d.value == expected;
  }

  /** A collision whose entity was destroyed in the same tick, before the
      fixed update, reaches the delivery loop with no object and fails. */
  lemma CollisionWithDestroyedEntityFails(e: Engine, order: seq<Guid>, scripts: Scripts, first: Guid, second: Guid)
    requires first != second && Enumerates(order, (e.entities.Keys + {first, second}) - ({first} + (set id | id in e.marked)))
    ensures var queued := OnCollisionEnd(HandleDestroyEntityEvent(OnCollisionBegin(e, first, second), EntityArg(first)), first, second);
      OnFixedUpdate(queued, order, scripts).Failure?
  {
    var b := OnCollisionBegin(e, first, second);
    var m := HandleDestroyEntityEvent(b, EntityArg(first));
    var q := OnCollisionEnd(m, first, second);
    assert first in q.marked;
    assert q.entities.Keys - (set id | id in q.marked)
        == (e.entities.Keys + {first, second}) - ({first} + (set id | id in e.marked));
    assert q.beginQueue[|q.beginQueue| - 1] == (first, second);
    assert first !in Drain(q).entities;
    FixedUpdateSucceeds(q, order, scripts);
  }

  // ---------------------------------------------------------------------------
  // Script events

  /** The engine service a script event name selects. */
  datatype Service =
    | ApplyForce | GetPosition | SetPosition | IsKeyPressed | IsMouseButtonPressed
    | GetCursorPosition | GetRotation | SetRotation | GetScale | SetScale
    | CreateEntity | DestroyEntity | SetRigid | ConfigureRigidbody | FindEntityByName
    | ReturnNone

  /** The name each service answers to. */
  function ServiceName(s: Service): string {
    match s
    case ApplyForce => "ApplyForce"
    case GetPosition => "GetPosition"
    case SetPosition => "SetPosition"
    case IsKeyPressed => "IsKeyPressed"
    case IsMouseButtonPressed => "IsMouseButtonPressed"
    case GetCursorPosition => "GetCursorPosition"
    case GetRotation => "GetRotation"
    case SetRotation => "SetRotation"
    case GetScale => "GetScale"
    case SetScale => "SetScale"
    case CreateEntity => "CreateEntity"
    case DestroyEntity => "DestroyEntity"
    case SetRigid => "SetRigid"
    case ConfigureRigidbody => "ConfigureRigidbody"
    case FindEntityByName => "FindEntityByName"
    case ReturnNone => ""
  }

  /** `HandleScriptEvent`: the chain of name comparisons. */
  function HandleScriptEvent(name: string): (s: Service)
    ensures s != ReturnNone ==> ServiceName(s) == name
    ensures s == ReturnNone <==> forall t: Service :: t != ReturnNone ==> ServiceName(t) != name
  {
    if name == "ApplyForce" then ApplyForce
    else if name == "GetPosition" then GetPosition
    else if name == "SetPosition" then SetPosition
    else if name == "IsKeyPressed" then IsKeyPressed
    else if name == "IsMouseButtonPressed" then IsMouseButtonPressed
    else if name == "GetCursorPosition" then GetCursorPosition
    else if name == "GetRotation" then GetRotation
    else if name == "SetRotation" then SetRotation
    else if name == "GetScale" then GetScale
    else if name == "SetScale" then SetScale
    else if name == "CreateEntity" then CreateEntity
    else if name == "DestroyEntity" then DestroyEntity
    else if name == "SetRigid" then SetRigid
    else if name == "ConfigureRigidbody" then ConfigureRigidbody
    else if name == "FindEntityByName" then FindEntityByName
    else ReturnNone
  }

  /** The result of a name lookup: the Python object returned, if any. */
  datatype Found = Found(engine: Engine, returned: Option<(Guid, PyEntity)>)

  /** `HandleFindEntityByNameEvent`, given the id the scene's lookup returned:
      `None` for the empty id, else the table's object for the id, created as a
      placeholder first if the table has none. */
  function HandleFindEntityByNameEvent(e: Engine, id: Guid): (r: Found)
    ensures id == EmptyGuid <==> r.returned.None?
    ensures id == EmptyGuid ==> r.engine == e
    ensures id != EmptyGuid ==>
      && id in r.engine.entities
      && r.returned == Some((id, r.engine.entities[id]))
      && (id in e.entities ==> r.engine == e)
      && (id !in e.entities ==> r.engine == e.(entities := e.entities[id := Placeholder]))
  {
    if id == EmptyGuid then Found(e, None)
    else if id in e.entities then Found(e, Some((id, e.entities[id])))
    else
      var entities := e.entities[id := Placeholder];
      Found(e.(entities := entities), Some((id, entities[id])))
  }

  /** The services whose handlers the scene installs before it loads the
      scripts; the name lookup is not among them. */
  const InstalledHandlers: set<Service> := {
    ApplyForce, GetPosition, SetPosition, IsKeyPressed, IsMouseButtonPressed,
    GetCursorPosition, GetRotation, SetRotation, GetScale, SetScale,
    CreateEntity, DestroyEntity, SetRigid, ConfigureRigidbody
  }

  /** `HandleFindEntityByNameEvent` as the engine runs it: the scene's lookup
      goes through the handler slot, and calling an empty slot fails. */
  function FindEntityByNameAsWritten(e: Engine, name: string, installed: set<Service>, lookup: string -> Guid): (r: Result<Found>)
    ensures r.Success? <==> FindEntityByName in installed
    ensures r.Success? ==> r.value == HandleFindEntityByNameEvent(e, lookup(name))
  {
    if FindEntityByName !in installed then Failure("FindEntityByName handler was never installed")
    else Success(HandleFindEntityByNameEvent(e, lookup(name)))
  }

  /** With the handlers the scene installs, every script call of
      `FindEntityByName` fails, whatever the name and the scene hold. */
  lemma FindEntityByNameFailsAfterPlay(e: Engine, name: string, lookup: string -> Guid)
    ensures FindEntityByNameAsWritten(e, name, InstalledHandlers, lookup).Failure?
  {
  }

  /** Once the lookup handler is installed as well, the call is the lookup
      followed by the table step, which returns the same object on a repeat. */
  lemma FindEntityByNameWithHandler(e: Engine, name: string, lookup: string -> Guid)
    ensures var r := FindEntityByNameAsWritten(e, name, InstalledHandlers + {FindEntityByName}, lookup);
      && r == Success(HandleFindEntityByNameEvent(e, lookup(name)))
      && (lookup(name) != EmptyGuid ==> r.value.returned == Some((lookup(name), r.value.engine.entities[lookup(name)])))
  {
  }

  /** Looking the same id up twice returns the same object and changes nothing
      the second time. */
  lemma FindTwiceSameObject(e: Engine, id: Guid)
    ensures var first := HandleFindEntityByNameEvent(e, id);
      var second := HandleFindEntityByNameEvent(first.engine, id);
      second == first
  {
  }
}
