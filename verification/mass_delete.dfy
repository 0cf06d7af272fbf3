/**
 * The data-grid "mass delete" action handler.
 *
 * The entity manager is represented by the trace of the calls it receives
 * (`remove`, `flush`, `clear`); whether the registry has a manager for a class
 * (`getManagerForClass`), authorization (`isGranted('DELETE', ...)`) and
 * `getReference` are function parameters; the result records are the
 * sequence the deletion iterator yields once the limiter has restricted
 * the query.
 */
module MassDelete {
  import opened PhpValues

  /** Number of removals after which the manager is flushed and cleared. */
  const FlushBatchSize: nat := 100

  /** Translation key used when the action defines no `[messages][success]` option. */
  const DefaultSuccessMessage: string := "oro.grid.mass_action.delete.success_message"

  /** The options of the mass action this handler serves. */
  datatype MassAction = MassAction(
    name: string,
    entityName: Option<string>,      // option `entity_name`
    dataIdentifier: Option<string>,  // option `data_identifier`
    successMessage: Option<string>)  // option `[messages][success]`

  /** What the mass-delete limiter reports for the selection. */
  datatype LimitResult = LimitResult(selected: int, deletable: int, maxLimit: int)

  datatype ResponseOptions =
    | NoOptions
    | LimitOptions(selected: int, deletable: int, maxLimit: int)  // selected, deletable, max_limit
    | CountOptions(count: nat)                                    // count

  /** A literal message, or a translation key rendered with `%count%`. */
  datatype Message = Text(text: string) | Translated(key: string, count: nat)

  datatype MassActionResponse = MassActionResponse(successful: bool, message: Message, options: ResponseOptions)

  /**
   * The `LogicException` the handler throws on a misconfigured action, or the PHP
   * `Error` raised when the loop uses the manager that `getManagerForClass` did not find.
   */
  datatype Failure = LogicException(message: string) | NullManagerError

  /** A result record: the root entity when the query selected one, and the column values. */
  datatype Record<E, V> = Record(rootEntity: Option<E>, values: map<string, V>)

  /** A call received by the entity manager. */
  datatype Event<E> = Remove(entity: E) | Flush | Clear

  // ---------------------------------------------------------------------------
  // Responses
  // ---------------------------------------------------------------------------

  /** The response to a POST: it only reports what the limiter found. */
  function PostResponse(limit: LimitResult): MassActionResponse
  {
    MassActionResponse(true, Text("OK"), LimitOptions(limit.selected, limit.deletable, limit.maxLimit))
  }

  /** The response to any method other than POST and DELETE. */
  function NotSupportedResponse(httpMethod: string): MassActionResponse
  {
    MassActionResponse(false, Text("Method \"" + httpMethod + "\" is not supported"), NoOptions)
  }

  /** The translation key of the success message. */
  function SuccessMessageKey(action: MassAction): string
  {
    if action.successMessage.Some? then action.successMessage.value else DefaultSuccessMessage
  }

  /** The response after a deletion run that removed `count` entities. */
  function DeleteResponse(action: MassAction, count: nat): (r: MassActionResponse)
    ensures r.successful <==> count > 0
    ensures r.options == CountOptions(count)
    ensures r.message.Translated? && r.message.count == count
    ensures r.message.key == if action.successMessage.Some? then action.successMessage.value else DefaultSuccessMessage
  {
    MassActionResponse(count > 0, Translated(SuccessMessageKey(action), count), CountOptions(count))
  }

  // ---------------------------------------------------------------------------
  // Reading the action's options
  // ---------------------------------------------------------------------------

  /** The `entity_name` option; a missing or falsy one is a configuration error. */
  function GetEntityName(action: MassAction): (r: Result<string, Failure>)
    ensures r.Err? <==> IsFalsyOption(action.entityName)
    ensures r.Err? ==> r.error == LogicException("Mass action \"" + action.name + "\" must define entity name")
    ensures r.Ok? ==> r.value == action.entityName.value && !IsFalsyString(r.value)
  {
    if IsFalsyOption(action.entityName) then
      Err(LogicException("Mass action \"" + action.name + "\" must define entity name"))
    else
      Ok(action.entityName.value)
  }

  /** The text after the last dot of `s`, or `s` itself when it has no dot. */
  function AfterLastDot(s: string): (r: string)
    ensures |r| <= |s| && r == s[|s| - |r|..]
    ensures '.' !in r
    ensures '.' in s ==> |r| < |s| && s[|s| - |r| - 1] == '.'
    ensures '.' !in s ==> r == s
  {
    if s == [] then s
    else if s[|s| - 1] == '.' then ""
    else AfterLastDot(s[..|s| - 1]) + [s[|s| - 1]]
  }

  /**
   * The `data_identifier` option without its entity alias (`e.id` gives `id`);
   * a missing or falsy identifier is a configuration error.
   */
  function GetEntityIdentifierField(action: MassAction): (r: Result<string, Failure>)
    ensures r.Err? <==> IsFalsyOption(action.dataIdentifier)
    ensures r.Err? ==> r.error == LogicException("Mass action \"" + action.name + "\" must define identifier name")
    ensures r.Ok? ==> r.value == AfterLastDot(action.dataIdentifier.value)
  {
    if IsFalsyOption(action.dataIdentifier) then
      Err(LogicException("Mass action \"" + action.name + "\" must define identifier name"))
    else
      var identifier := action.dataIdentifier.value;
      if '.' in identifier then Ok(AfterLastDot(identifier)) else Ok(identifier)
  }

  // ---------------------------------------------------------------------------
  // Specification of the deletion run
  // ---------------------------------------------------------------------------

  /** `getValue` of a record: the column value, or null when the column is absent. */
  function GetValue<E, V>(record: Record<E, V>, field: string): Option<V>
  {
    if field in record.values then Some(record.values[field]) else None
  }

  /** The entity a record stands for: its root entity, or else a reference loaded by identifier. */
  function ResolveEntity<E, V>(record: Record<E, V>, entityName: string, idField: string,
                               reference: (string, Option<V>) -> Option<E>): Option<E>
  {
    if record.rootEntity.Some? then record.rootEntity
    else reference(entityName, GetValue(record, idField))
  }

  /** The entities a run over `records` removes, in order: those resolved and granted DELETE. */
  function DeletedEntities<E, V>(records: seq<Record<E, V>>, entityName: string, idField: string,
                                 reference: (string, Option<V>) -> Option<E>, granted: E -> bool): seq<E>
  {
    if records == [] then []
    else
      var previous := DeletedEntities(records[..|records| - 1], entityName, idField, reference, granted);
      var entity := ResolveEntity(records[|records| - 1], entityName, idField, reference);
      if entity.Some? && granted(entity.value) then previous + [entity.value] else previous
  }

  /** The manager calls while `es` are removed one by one, with a flush and clear after every full batch. */
  function RemovalEvents<E>(es: seq<E>): seq<Event<E>>
  {
    if es == [] then []
    else
      RemovalEvents(es[..|es| - 1]) + [Remove(es[|es| - 1])]
      + (if |es| % FlushBatchSize == 0 then [Flush, Clear] else [])
  }

  /** All manager calls of a run that removes `es`: a last flush and clear for a partial batch. */
  function DeleteEvents<E>(es: seq<E>): seq<Event<E>>
  {
    RemovalEvents(es) + (if |es| % FlushBatchSize > 0 then [Flush, Clear] else [])
  }

  lemma DeletedEntitiesStep<E, V>(records: seq<Record<E, V>>, i: nat, entityName: string, idField: string,
                                  reference: (string, Option<V>) -> Option<E>, granted: E -> bool)
    requires i < |records|
    ensures var entity := ResolveEntity(records[i], entityName, idField, reference);
            var previous := DeletedEntities(records[..i], entityName, idField, reference, granted);
            DeletedEntities(records[..i + 1], entityName, idField, reference, granted)
              == if entity.Some? && granted(entity.value) then previous + [entity.value] else previous
  {
    assert records[..i + 1][..i] == records[..i];
  }

  lemma RemovalEventsStep<E>(es: seq<E>, e: E)
    ensures RemovalEvents(es + [e])
              == RemovalEvents(es) + [Remove(e)] + (if (|es| + 1) % FlushBatchSize == 0 then [Flush, Clear] else [])
  {
  }

  /**
   * Whether the loop reaches for the manager on `record`: to load a reference when the
   * record has no root entity, or to remove a root entity DELETE is granted on.
   */
  predicate NeedsManager<E, V>(record: Record<E, V>, granted: E -> bool)
  {
    record.rootEntity.None? || granted(record.rootEntity.value)
  }

  /**
   * The outcome of `doDelete`: the response (or exception) and the manager calls.
   * `managed` says whether the registry has a manager for a class.
   */
  function DeleteSpec<E, V>(action: MassAction, records: seq<Record<E, V>>, managed: string -> bool,
                            reference: (string, Option<V>) -> Option<E>, granted: E -> bool)
    : (Result<MassActionResponse, Failure>, seq<Event<E>>)
  {
    match GetEntityName(action)
    case Err(e) => (Err(e), [])
    case Ok(entityName) =>
      match GetEntityIdentifierField(action)
      case Err(e) => (Err(e), [])
      case Ok(idField) =>
        if !managed(entityName) then
          if exists i :: 0 <= i < |records| && NeedsManager(records[i], granted) then (Err(NullManagerError), [])
          else (Ok(DeleteResponse(action, 0)), [])
        else
          var es := DeletedEntities(records, entityName, idField, reference, granted);
          (Ok(DeleteResponse(action, |es|)), DeleteEvents(es))
  }

  // ---------------------------------------------------------------------------
  // Reading a trace of manager calls
  // ---------------------------------------------------------------------------

  /** The entities passed to `remove`, in call order. */
  function Removed<E>(events: seq<Event<E>>): seq<E>
  {
    if events == [] then []
    else
      var last := events[|events| - 1];
      Removed(events[..|events| - 1]) + (if last.Remove? then [last.entity] else [])
  }

  /** The number of `flush` calls. */
  function FlushCount<E>(events: seq<Event<E>>): nat
  {
    if events == [] then 0
    else FlushCount(events[..|events| - 1]) + (if events[|events| - 1].Flush? then 1 else 0)
  }

  /** The number of `remove` calls since the last `flush`: removals not yet written to the database. */
  function Unflushed<E>(events: seq<Event<E>>): nat
  {
    if events == [] then 0
    else
      match events[|events| - 1]
      case Remove(_) => Unflushed(events[..|events| - 1]) + 1
      case Flush => 0
      case Clear => Unflushed(events[..|events| - 1])
  }

  lemma {:induction false} TraceAppend<E>(a: seq<Event<E>>, b: seq<Event<E>>)
    ensures Removed(a + b) == Removed(a) + Removed(b)
    ensures FlushCount(a + b) == FlushCount(a) + FlushCount(b)
    decreases |b|
  {
    if b == [] {
      assert a + b == a;
    } else {
      var b' := b[..|b| - 1];
      assert (a + b)[..|a + b| - 1] == a + b';
      TraceAppend(a, b');
    }
  }

  lemma FlushClearStep<E>(a: seq<Event<E>>)
    ensures Removed(a + [Flush, Clear]) == Removed(a)
    ensures FlushCount(a + [Flush, Clear]) == FlushCount(a) + 1
    ensures Unflushed(a + [Flush, Clear]) == 0
  {
    assert (a + [Flush, Clear])[..|a| + 1] == a + [Flush];
    assert (a + [Flush])[..|a|] == a;
  }

  /** Removing `es` in batches removes each of them once, in order, and flushes after every full batch. */
  lemma {:induction false} RemovalEventsFacts<E>(es: seq<E>)
    ensures Removed(RemovalEvents(es)) == es
    ensures FlushCount(RemovalEvents(es)) == |es| / FlushBatchSize
    ensures Unflushed(RemovalEvents(es)) == |es| % FlushBatchSize
  {
    if es != [] {
      var init := es[..|es| - 1];
      var e := es[|es| - 1];
      RemovalEventsFacts(init);
      var prefix := RemovalEvents(init) + [Remove(e)];
      TraceAppend(RemovalEvents(init), [Remove(e)]);
      assert prefix[..|prefix| - 1] == RemovalEvents(init);
      assert Removed([Remove(e)]) == [e] by {
        assert [Remove(e)][..0] == [];
      }
      assert FlushCount([Remove(e)]) == 0 by {
        assert [Remove(e)][..0] == [];
      }
      assert init + [e] == es;
      if |es| % FlushBatchSize == 0 {
        FlushClearStep(prefix);
      } else {
        assert RemovalEvents(es) == prefix;
      }
    }
  }

  /**
   * A run that removes `es` calls `remove` once per entity in order, flushes
   * ceil(|es| / 100) times, and leaves nothing unflushed; no removal means no flush.
   */
  lemma DeleteEventsFacts<E>(es: seq<E>)
    ensures Removed(DeleteEvents(es)) == es
    ensures FlushCount(DeleteEvents(es)) == (|es| + FlushBatchSize - 1) / FlushBatchSize
    ensures Unflushed(DeleteEvents(es)) == 0
    ensures es == [] ==> DeleteEvents(es) == []
  {
    RemovalEventsFacts(es);
    if |es| % FlushBatchSize > 0 {
      FlushClearStep(RemovalEvents(es));
    } else {
      assert DeleteEvents(es) == RemovalEvents(es);
    }
  }

  /**
   * An entity is removed exactly when some record resolves to it (its root entity,
   * or else the reference loaded by identifier) and DELETE is granted on it.
   */
  lemma {:induction false} DeletedEntitiesAreGranted<E, V>(
    records: seq<Record<E, V>>, entityName: string, idField: string,
    reference: (string, Option<V>) -> Option<E>, granted: E -> bool, e: E)
    ensures e in DeletedEntities(records, entityName, idField, reference, granted) <==>
              granted(e) &&
              exists i :: 0 <= i < |records| && ResolveEntity(records[i], entityName, idField, reference) == Some(e)
    ensures |DeletedEntities(records, entityName, idField, reference, granted)| <= |records|
  {
    if records != [] {
      var init := records[..|records| - 1];
      DeletedEntitiesAreGranted(init, entityName, idField, reference, granted, e);
      forall i | 0 <= i < |init| ensures init[i] == records[i] { }
      var last := |records| - 1;
      if e in DeletedEntities(records, entityName, idField, reference, granted) {
        if e !in DeletedEntities(init, entityName, idField, reference, granted) {
          assert ResolveEntity(records[last], entityName, idField, reference) == Some(e);
        }
      } else if granted(e) {
        forall i | 0 <= i < |records|
          ensures ResolveEntity(records[i], entityName, idField, reference) != Some(e)
        {
          if i < last {
            assert ResolveEntity(init[i], entityName, idField, reference) != Some(e);
          }
        }
      }
    }
  }

  /**
   * How `doDelete` fails: a misconfigured action throws a `LogicException`; a class no manager
   * handles fails on the first record that needs the manager. Neither makes a manager call,
   * and nor does a run without a manager that never needs one: it reports zero removals.
   */
  lemma DeleteFailures<E, V>(action: MassAction, records: seq<Record<E, V>>, managed: string -> bool,
                             reference: (string, Option<V>) -> Option<E>, granted: E -> bool)
    ensures var r := DeleteSpec(action, records, managed, reference, granted).0;
            r.Err? && r.error.LogicException? <==> IsFalsyOption(action.entityName) || IsFalsyOption(action.dataIdentifier)
    ensures var r := DeleteSpec(action, records, managed, reference, granted).0;
            r == Err(NullManagerError) <==>
              && !IsFalsyOption(action.entityName) && !IsFalsyOption(action.dataIdentifier)
              && !managed(action.entityName.value)
              && exists i :: 0 <= i < |records| && NeedsManager(records[i], granted)
    ensures var (r, events) := DeleteSpec(action, records, managed, reference, granted);
            r.Err? ==> events == []
    ensures !IsFalsyOption(action.entityName) && !managed(action.entityName.value) ==>
              DeleteSpec(action, records, managed, reference, granted).1 == []
    ensures var r := DeleteSpec(action, records, managed, reference, granted).0;
            !IsFalsyOption(action.entityName) && !managed(action.entityName.value) && r.Ok? ==>
              !r.value.successful && r.value.options == CountOptions(0)
  {
  }

  /**
   * A run of `doDelete` with a manager for the entity class that succeeds reports exactly the
   * removed entities, all granted; it is successful iff one was removed, and the manager flushed
   * ceil(count / 100) times with nothing left unflushed.
   */
  lemma DeleteOutcome<E, V>(action: MassAction, records: seq<Record<E, V>>, managed: string -> bool,
                            reference: (string, Option<V>) -> Option<E>, granted: E -> bool)
    requires !IsFalsyOption(action.entityName) ==> managed(action.entityName.value)
    ensures var (r, events) := DeleteSpec(action, records, managed, reference, granted);
            r.Ok? ==>
              var count := |Removed(events)|;
              && r.value.options == CountOptions(count)
              && (r.value.successful <==> count > 0)
              && FlushCount(events) == (count + FlushBatchSize - 1) / FlushBatchSize
              && Unflushed(events) == 0
              && (forall e :: e in Removed(events) ==> granted(e))
  {
    var (r, events) := DeleteSpec(action, records, managed, reference, granted);
    if r.Ok? {
      var entityName := GetEntityName(action).value;
      var idField := GetEntityIdentifierField(action).value;
      var es := DeletedEntities(records, entityName, idField, reference, granted);
      DeleteEventsFacts(es);
      forall e | e in Removed(events) ensures granted(e) {
        DeletedEntitiesAreGranted(records, entityName, idField, reference, granted, e);
      }
    }
  }

  // ---------------------------------------------------------------------------
  // The handler
  // ---------------------------------------------------------------------------

  /**
   * The `foreach` of `doDelete`: remove every resolved entity the user may delete,
   * flushing and clearing after each full batch and once more for a partial one.
   */
  method RemoveGranted<E, V>(records: seq<Record<E, V>>, entityName: string, idField: string,
                             reference: (string, Option<V>) -> Option<E>, granted: E -> bool)
    returns (iteration: nat, events: seq<Event<E>>)
    ensures iteration == |DeletedEntities(records, entityName, idField, reference, granted)|
    ensures events == DeleteEvents(DeletedEntities(records, entityName, idField, reference, granted))
  {
    events := [];
    iteration := 0;
    var i := 0;
    while i < |records|
      invariant 0 <= i <= |records|
      invariant iteration == |DeletedEntities(records[..i], entityName, idField, reference, granted)|
      invariant events == RemovalEvents(DeletedEntities(records[..i], entityName, idField, reference, granted))
    {
      ghost var done := DeletedEntities(records[..i], entityName, idField, reference, granted);
      ghost var next := DeletedEntities(records[..i + 1], entityName, idField, reference, granted);
      DeletedEntitiesStep(records, i, entityName, idField, reference, granted);
      var record := records[i];
      var entity := record.rootEntity;
      var identifierValue := GetValue(record, idField);
      if entity.None? {
        // no entity in the record: load a reference by its identifier
        entity := reference(entityName, identifierValue);
      }
      assert entity == ResolveEntity(records[i], entityName, idField, reference);
      if entity.Some? {
        if !granted(entity.value) {
          assert next == done;
          i := i + 1;
          continue;
        }
        assert next == done + [entity.value];
        RemovalEventsStep(done, entity.value);
        events := events + [Remove(entity.value)];
        iteration := iteration + 1;
        if iteration % FlushBatchSize == 0 {
          events := events + [Flush, Clear];
        }
        assert events == RemovalEvents(next);
      } else {
        assert next == done;
      }
      i := i + 1;
    }
    assert records[..|records|] == records;
    if iteration % FlushBatchSize > 0 {
      events := events + [Flush, Clear];
    }
  }

  /**
   * The `foreach` of `doDelete` when `getManagerForClass` found no manager: it fails at the
   * first record that needs the manager, and otherwise ends having removed nothing.
   */
  method ScanWithoutManager<E, V>(records: seq<Record<E, V>>, granted: E -> bool) returns (failed: bool)
    ensures failed <==> exists i :: 0 <= i < |records| && NeedsManager(records[i], granted)
  {
    var i := 0;
    while i < |records|
      invariant 0 <= i <= |records|
      invariant forall j :: 0 <= j < i ==> !NeedsManager(records[j], granted)
    {
      var entity := records[i].rootEntity;
      if entity.None? {
        // `getReference` is called on null
        return true;
      }
      if granted(entity.value) {
        // `processDelete` is handed null for its manager
        return true;
      }
      i := i + 1;
    }
    return false;
  }

  /** `doDelete`: check the action's options, run the deletion and report how many entities went. */
  method DoDelete<E, V>(action: MassAction, records: seq<Record<E, V>>, managed: string -> bool,
                        reference: (string, Option<V>) -> Option<E>, granted: E -> bool)
    returns (r: Result<MassActionResponse, Failure>, events: seq<Event<E>>)
    ensures (r, events) == DeleteSpec(action, records, managed, reference, granted)
  {
    var nameResult := GetEntityName(action);
    if nameResult.Err? {
      return Err(nameResult.error), [];
    }
    var fieldResult := GetEntityIdentifierField(action);
    if fieldResult.Err? {
      return Err(fieldResult.error), [];
    }
    if !managed(nameResult.value) {
      var failed := ScanWithoutManager(records, granted);
      if failed {
        return Err(NullManagerError), [];
      }
      return Ok(DeleteResponse(action, 0)), [];
    }
    var iteration;
    iteration, events := RemoveGranted(records, nameResult.value, fieldResult.value, reference, granted);
    r := Ok(DeleteResponse(action, iteration));
  }

  /**
   * `handle`: POST reports the limits, DELETE runs the deletion, anything else is refused.
   * `limit` is what the limiter computed for the request; `records` the selection it left.
   */
  method Handle<E, V>(httpMethod: string, limit: LimitResult, action: MassAction, records: seq<Record<E, V>>,
                      managed: string -> bool, reference: (string, Option<V>) -> Option<E>, granted: E -> bool)
    returns (r: Result<MassActionResponse, Failure>, events: seq<Event<E>>)
    ensures httpMethod == "POST" ==>
              && r.Ok? && r.value.successful && r.value.message == Text("OK")
              && r.value.options == LimitOptions(limit.selected, limit.deletable, limit.maxLimit)
              && events == []
    ensures httpMethod == "DELETE" ==> (r, events) == DeleteSpec(action, records, managed, reference, granted)
    ensures httpMethod != "POST" && httpMethod != "DELETE" ==>
              && r.Ok? && !r.value.successful && r.value.options == NoOptions
              && r.value.message == Text("Method \"" + httpMethod + "\" is not supported")
              && events == []
  {
    if httpMethod == "POST" {
      r, events := Ok(PostResponse(limit)), [];
    } else if httpMethod == "DELETE" {
      r, events := DoDelete(action, records, managed, reference, granted);
    } else {
      r, events := Ok(NotSupportedResponse(httpMethod)), [];
    }
  }
}
