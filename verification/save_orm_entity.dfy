/**
 * The "create" action processor that saves the created entity through the ORM.
 *
 * The Doctrine helper's `getEntityManager(entity, false)` is the function
 * `getEntityManager`; the processor's effect is the trace of the calls it makes.
 */
module SaveOrmEntity {
  import opened PhpValues

  /** The result of the action so far: none, a plain array, or an object. */
  datatype ResultValue<O> = NoResult | ArrayResult | ObjectResult(entity: O)

  /** A recorded (non-fatal) error of the action. */
  datatype Error = Error(detail: string)

  /** The parts of the form context the processor reads. */
  datatype FormContext<O> = FormContext(errors: seq<Error>, result: ResultValue<O>)

  /** A call the processor makes on the Doctrine helper or on the entity manager `M`. */
  datatype Call<O, M> =
    | GetEntityManager(entity: O, strict: bool)
    | Persist(manager: M, entity: O)
    | FlushEntity(manager: M, entity: O)

  /**
   * `process`: with recorded errors, or without an object result, it does nothing; otherwise
   * it looks up the entity's manager (non-strictly) and, when there is one, persists and
   * flushes exactly that entity.
   */
  method Process<O, M>(context: FormContext<O>, getEntityManager: (O, bool) -> Option<M>)
    returns (calls: seq<Call<O, M>>)
    ensures context.errors != [] ==> calls == []
    ensures !context.result.ObjectResult? ==> calls == []
    ensures context.errors == [] && context.result.ObjectResult? ==>
              var entity := context.result.entity;
              match getEntityManager(entity, false)
              case None => calls == [GetEntityManager(entity, false)]
              case Some(manager) =>
                calls == [GetEntityManager(entity, false), Persist(manager, entity), FlushEntity(manager, entity)]
  {
    calls := [];
    if context.errors != [] {
      return;
    }
    if !context.result.ObjectResult? {
      return;
    }
    var entity := context.result.entity;
    calls := calls + [GetEntityManager(entity, false)];
    var manager := getEntityManager(entity, false);
    if manager.None? {
      return;
    }
    calls := calls + [Persist(manager.value, entity)];
    calls := calls + [FlushEntity(manager.value, entity)];
  }
}
