/**
 * The API processor that builds "extended associations" of loaded entity data.
 *
 * A configured field whose data type reads `association:<kind>:<label>` is filled
 * in from the fields the association manager maps to each target class: a to-one
 * value (`manyToOne`), or a list (`manyToMany`, `multipleManyToOne`).
 * The association manager is the function `targetsOf`.
 */
module ExtendedAssociations {
  import opened PhpValues

  /** A value of the loaded data: null, a scalar, an associative array or a list. */
  datatype Value =
    | Null
    | Int(i: int)
    | Str(s: string)
    | Dict(entries: map<string, Value>)
    | List(items: seq<Value>)

  /** A field of the entity definition config. */
  datatype FieldConfig = FieldConfig(name: string, dataType: string, excluded: bool)

  /** The arguments of one `getAssociationTargets` call. */
  datatype TargetsCall = TargetsCall(ownerClass: string, joinClass: Option<string>, kind: string, targetLabel: Option<string>)

  /** The ordered target-class => field-name map the association manager returns. */
  type TargetMap = seq<(string, string)>

  /** The parts of an `association:<kind>:<label>` data type. */
  datatype ExtendedAssociationType = ExtendedAssociationType(kind: string, targetLabel: Option<string>)

  datatype AssociationKind = ManyToOne | ManyToMany | MultipleManyToOne

  /** The processed data and the manager calls made, or the LogicException message and the calls made before it. */
  datatype Outcome =
    | Done(data: map<string, Value>, calls: seq<TargetsCall>)
    | Failed(message: string, calls: seq<TargetsCall>)

  const AssociationPrefix: string := "association:"
  const ClassKey: string := "__class__"
  const IdKey: string := "id"

  // ---------------------------------------------------------------------------
  // Parsing the data type
  // ---------------------------------------------------------------------------

  /** `s` cut at its first `sep`: the text before it, and the text after it when there is one. */
  function SplitAtFirst(s: string, sep: char): (r: (string, Option<string>))
    ensures sep !in r.0
    ensures r.1.None? ==> r.0 == s
    ensures r.1.Some? ==> s == r.0 + [sep] + r.1.value
  {
    if s == [] then ("", None)
    else if s[0] == sep then ("", Some(s[1..]))
    else
      var (before, after) := SplitAtFirst(s[1..], sep);
      ([s[0]] + before, after)
  }

  predicate IsExtendedAssociation(dataType: string)
  {
    |AssociationPrefix| <= |dataType| && dataType[..|AssociationPrefix|] == AssociationPrefix
  }

  /**
   * The kind and label of an extended-association data type: the kind runs up to the
   * next colon, the label is the rest (null when there is no second colon).
   */
  function ParseExtendedAssociation(dataType: string): (r: Option<ExtendedAssociationType>)
    ensures r.Some? <==> IsExtendedAssociation(dataType)
    ensures r.Some? ==> ':' !in r.value.kind
    ensures r.Some? && r.value.targetLabel.Some? ==> dataType == AssociationPrefix + r.value.kind + ":" + r.value.targetLabel.value
    ensures r.Some? && r.value.targetLabel.None? ==> dataType == AssociationPrefix + r.value.kind
  {
    if !IsExtendedAssociation(dataType) then None
    else
      var rest := dataType[|AssociationPrefix|..];
      assert dataType == AssociationPrefix + rest;
      var (kind, targetLabel) := SplitAtFirst(rest, ':');
      Some(ExtendedAssociationType(kind, targetLabel))
  }

  function KindOf(kind: string): (r: Option<AssociationKind>)
    ensures r == Some(ManyToOne) <==> kind == "manyToOne"
    ensures r == Some(ManyToMany) <==> kind == "manyToMany"
    ensures r == Some(MultipleManyToOne) <==> kind == "multipleManyToOne"
  {
    if kind == "manyToOne" then Some(ManyToOne)
    else if kind == "manyToMany" then Some(ManyToMany)
    else if kind == "multipleManyToOne" then Some(MultipleManyToOne)
    else None
  }

  // ---------------------------------------------------------------------------
  // Folding the mapped fields into the association value
  // ---------------------------------------------------------------------------

  /** `$data[$field]`: a missing key reads as null. */
  function FieldValue(data: map<string, Value>, field: string): Value
  {
    if field in data then data[field] else Null
  }

  /** `$value['id']`. */
  function IdOf(v: Value): Value
  {
    if v.Dict? && IdKey in v.entries then v.entries[IdKey] else Null
  }

  /** The reference `{__class__: targetClass, id: ...}` to the entity `v`. */
  function EntityRef(targetClass: string, v: Value): Value
  {
    Dict(map[ClassKey := Str(targetClass), IdKey := IdOf(v)])
  }

  /** To-one: a reference built from the first mapped field that is not null, or null. */
  function BuildManyToOne(data: map<string, Value>, targets: TargetMap): Value
  {
    if targets == [] then Null
    else
      var (targetClass, field) := targets[0];
      if FieldValue(data, field) != Null then EntityRef(targetClass, FieldValue(data, field))
      else BuildManyToOne(data, targets[1..])
  }

  /** The references to the items of a to-many field's list. */
  function ListRefs(targetClass: string, v: Value): (r: seq<Value>)
    ensures v.List? ==> |r| == |v.items| && forall k :: 0 <= k < |r| ==> r[k] == EntityRef(targetClass, v.items[k])
    ensures !v.List? ==> r == []
  {
    if v.List? then seq(|v.items|, k requires 0 <= k < |v.items| => EntityRef(targetClass, v.items[k])) else []
  }

  /** To-many: a reference to every item of every mapped list, in mapping order. */
  function BuildManyToMany(data: map<string, Value>, targets: TargetMap): seq<Value>
  {
    if targets == [] then []
    else
      var (targetClass, field) := targets[0];
      ListRefs(targetClass, FieldValue(data, field)) + BuildManyToMany(data, targets[1..])
  }

  /** Multiple to-one: a reference for every mapped field that is not null, in mapping order. */
  function BuildMultipleManyToOne(data: map<string, Value>, targets: TargetMap): seq<Value>
  {
    if targets == [] then []
    else
      var (targetClass, field) := targets[0];
      var v := FieldValue(data, field);
      (if v != Null then [EntityRef(targetClass, v)] else []) + BuildMultipleManyToOne(data, targets[1..])
  }

  function AssociationValue(kind: AssociationKind, data: map<string, Value>, targets: TargetMap): Value
  {
    match kind
    case ManyToOne => BuildManyToOne(data, targets)
    case ManyToMany => List(BuildManyToMany(data, targets))
    case MultipleManyToOne => List(BuildMultipleManyToOne(data, targets))
  }

  // ---------------------------------------------------------------------------
  // The processor
  // ---------------------------------------------------------------------------

  /** A field is filled in when it is an extended association, not excluded and not yet in the data. */
  predicate IsPending(data: map<string, Value>, field: FieldConfig)
  {
    !field.excluded && field.name !in data && IsExtendedAssociation(field.dataType)
  }

  /** The manager call for a pending field. */
  function CallFor(className: string, field: FieldConfig): TargetsCall
    requires IsExtendedAssociation(field.dataType)
  {
    var parsed := ParseExtendedAssociation(field.dataType).value;
    TargetsCall(className, None, parsed.kind, parsed.targetLabel)
  }

  /** Build the extended associations of `fields[i..]` into `data`; `calls` are the manager calls so far. */
  function BuildFrom(data: map<string, Value>, className: string, fields: seq<FieldConfig>, i: nat,
                     targetsOf: TargetsCall -> TargetMap, calls: seq<TargetsCall>): Outcome
    requires i <= |fields|
    decreases |fields| - i
  {
    if i == |fields| then Done(data, calls)
    else
      var field := fields[i];
      if !IsPending(data, field) then BuildFrom(data, className, fields, i + 1, targetsOf, calls)
      else
        var call := CallFor(className, field);
        var targets := targetsOf(call);
        match KindOf(call.kind)
        case None =>
          Failed("Unsupported type of extended association: " + call.kind + ".", calls + [call])
        case Some(kind) =>
          BuildFrom(data[field.name := AssociationValue(kind, data, targets)], className, fields, i + 1,
                    targetsOf, calls + [call])
  }

  /** The processing of an entity's data under its config. */
  function BuildAssociations(data: map<string, Value>, className: string, fields: seq<FieldConfig>,
                             targetsOf: TargetsCall -> TargetMap): Outcome
  {
    BuildFrom(data, className, fields, 0, targetsOf, [])
  }

  /** The context of the "customize loaded data" action, as far as this processor uses it. */
  class CustomizeLoadedDataContext {
    var className: string
    var result: Option<Value>
    var config: Option<seq<FieldConfig>>

    constructor (className: string, result: Option<Value>, config: Option<seq<FieldConfig>>)
      ensures this.className == className && this.result == result && this.config == config
    {
      this.className := className;
      this.result := result;
      this.config := config;
    }
  }

  /**
   * `process`: without an associative-array result or a config nothing happens; otherwise the result
   * becomes the data with its extended associations built, unless an unsupported kind
   * throws, which leaves the result as it was.
   */
  method Process(context: CustomizeLoadedDataContext, targetsOf: TargetsCall -> TargetMap)
    returns (calls: seq<TargetsCall>, error: Option<string>)
    modifies context
    ensures context.className == old(context.className) && context.config == old(context.config)
    ensures !(old(context.result).Some? && old(context.result).value.Dict? && old(context.config).Some?) ==>
              context.result == old(context.result) && calls == [] && error == None
    ensures old(context.result).Some? && old(context.result).value.Dict? && old(context.config).Some? ==>
              match BuildAssociations(old(context.result).value.entries, old(context.className),
                                      old(context.config).value, targetsOf)
              case Done(data, made) => context.result == Some(Dict(data)) && calls == made && error == None
              case Failed(message, made) => context.result == old(context.result) && calls == made && error == Some(message)
  {
    calls, error := [], None;
    if context.result.None? || !context.result.value.Dict? || context.config.None? {
      return;
    }
    var outcome := BuildAssociations(context.result.value.entries, context.className, context.config.value, targetsOf);
    match outcome
    case Done(data, made) =>
      context.result := Some(Dict(data));
      calls := made;
    case Failed(message, made) =>
      calls, error := made, Some(message);
  }

  // ---------------------------------------------------------------------------
  // Lemmas
  // ---------------------------------------------------------------------------

  /**
   * What processing does to the data: keys already present keep their values, every
   * new key is a pending field, each manager call names the entity class and no join
   * class, and a failure names the unsupported kind.
   */
  lemma {:induction false} BuildFromFrame(data: map<string, Value>, className: string, fields: seq<FieldConfig>,
                                          i: nat, targetsOf: TargetsCall -> TargetMap, calls: seq<TargetsCall>)
    requires i <= |fields|
    ensures var outcome := BuildFrom(data, className, fields, i, targetsOf, calls);
            && |calls| <= |outcome.calls| <= |calls| + |fields| - i
            && outcome.calls[..|calls|] == calls
            && (forall c :: c in outcome.calls[|calls|..] ==> c.ownerClass == className && c.joinClass.None?)
            && (outcome.Done? ==>
                  && (forall k :: k in data ==> k in outcome.data && outcome.data[k] == data[k])
                  && (forall k :: k in outcome.data && k !in data ==>
                        exists j :: i <= j < |fields| && fields[j].name == k && IsPending(data, fields[j])))
            && (outcome.Failed? ==>
                  exists kind :: KindOf(kind).None? &&
                    outcome.message == "Unsupported type of extended association: " + kind + ".")
    decreases |fields| - i
  {
    if i < |fields| {
      var field := fields[i];
      if !IsPending(data, field) {
        BuildFromFrame(data, className, fields, i + 1, targetsOf, calls);
      } else {
        var call := CallFor(className, field);
        var targets := targetsOf(call);
        var next := calls + [call];
        match KindOf(call.kind)
        case None =>
          assert next[..|calls|] == calls;
          assert next[|calls|..] == [call];
        case Some(kind) =>
          var data' := data[field.name := AssociationValue(kind, data, targets)];
          BuildFromFrame(data', className, fields, i + 1, targetsOf, next);
          var outcome := BuildFrom(data', className, fields, i + 1, targetsOf, next);
          assert outcome.calls[..|next|] == next;
          assert outcome.calls[..|calls|] == next[..|calls|] == calls;
          forall c | c in outcome.calls[|calls|..] ensures c.ownerClass == className && c.joinClass.None? {
            var n := |calls|;
            assert outcome.calls[n..] == [outcome.calls[n]] + outcome.calls[n + 1..];
            assert outcome.calls[n] == next[n] == call;
            assert outcome.calls[n + 1..] == outcome.calls[|next|..];
          }
          if outcome.Done? {
            forall k | k in outcome.data && k !in data
              ensures exists j :: i <= j < |fields| && fields[j].name == k && IsPending(data, fields[j])
            {
              if k == field.name {
                assert fields[i].name == k && IsPending(data, fields[i]);
              } else {
                var j :| i + 1 <= j < |fields| && fields[j].name == k && IsPending(data', fields[j]);
                assert IsPending(data, fields[j]);
              }
            }
          }
      }
    } else {
      assert calls[..|calls|] == calls;
    }
  }

  /** When no field is pending (none is an association, or each is excluded or already set), nothing changes and the manager is never asked. */
  lemma {:induction false} NothingPendingLeavesDataUnchanged(data: map<string, Value>, className: string,
                                                            fields: seq<FieldConfig>, targetsOf: TargetsCall -> TargetMap)
    requires forall j :: 0 <= j < |fields| ==> !IsPending(data, fields[j])
    ensures BuildAssociations(data, className, fields, targetsOf) == Done(data, [])
  {
    var i := |fields|;
    while i > 0
      invariant 0 <= i <= |fields|
      invariant BuildFrom(data, className, fields, i, targetsOf, []) == Done(data, [])
    {
      i := i - 1;
    }
  }

  /**
   * A single pending field `association:<kind>:<targetLabel>` makes exactly one manager call,
   * (className, null, kind, targetLabel); a known kind adds the association under the field's
   * name and leaves every other key alone, an unknown one throws naming the kind.
   */
  lemma SinglePendingField(data: map<string, Value>, className: string, field: FieldConfig,
                           targetsOf: TargetsCall -> TargetMap)
    requires IsPending(data, field)
    ensures var parsed := ParseExtendedAssociation(field.dataType).value;
            var call := TargetsCall(className, None, parsed.kind, parsed.targetLabel);
            var outcome := BuildAssociations(data, className, [field], targetsOf);
            && outcome.calls == [call]
            && (KindOf(parsed.kind).None? ==>
                  outcome == Failed("Unsupported type of extended association: " + parsed.kind + ".", [call]))
            && (KindOf(parsed.kind).Some? ==>
                  && outcome.Done?
                  && outcome.data.Keys == data.Keys + {field.name}
                  && outcome.data[field.name] == AssociationValue(KindOf(parsed.kind).value, data, targetsOf(call))
                  && forall k :: k in data ==> outcome.data[k] == data[k])
  {
    var call := CallFor(className, field);
    var fields := [field];
    assert fields[0] == field;
    assert [] + [call] == [call];
    var outcome := BuildFrom(data, className, fields, 0, targetsOf, []);
    match KindOf(call.kind)
    case None =>
      assert outcome == Failed("Unsupported type of extended association: " + call.kind + ".", [call]);
    case Some(kind) =>
      var data' := data[field.name := AssociationValue(kind, data, targetsOf(call))];
      assert outcome == BuildFrom(data', className, fields, 1, targetsOf, [call]);
      assert outcome == Done(data', [call]);
  }

  /** Position of the first mapped field whose value is not null, or `|targets|` when every one is null. */
  function FirstNonNullIndex(data: map<string, Value>, targets: TargetMap): (j: nat)
    ensures j <= |targets|
    ensures forall k :: 0 <= k < j ==> FieldValue(data, targets[k].1) == Null
    ensures j < |targets| ==> FieldValue(data, targets[j].1) != Null
  {
    if targets == [] then 0
    else if FieldValue(data, targets[0].1) != Null then 0
    else
      var j := FirstNonNullIndex(data, targets[1..]);
      assert forall k :: 0 < k < |targets| ==> targets[k] == targets[1..][k - 1];
      1 + j
  }

  /** to-one: the reference built from the first non-null mapped field, and null when there is none. */
  lemma {:induction false} ManyToOneIsFirstNonNull(data: map<string, Value>, targets: TargetMap)
    ensures var j := FirstNonNullIndex(data, targets);
            BuildManyToOne(data, targets)
              == if j == |targets| then Null else EntityRef(targets[j].0, FieldValue(data, targets[j].1))
  {
    if targets != [] && FieldValue(data, targets[0].1) == Null {
      ManyToOneIsFirstNonNull(data, targets[1..]);
    }
  }

  /** to-one: null exactly when every mapped field is null. */
  lemma {:induction false} ManyToOneNullIffAllNull(data: map<string, Value>, targets: TargetMap)
    ensures BuildManyToOne(data, targets) == Null <==>
              forall j :: 0 <= j < |targets| ==> FieldValue(data, targets[j].1) == Null
  {
    ManyToOneIsFirstNonNull(data, targets);
  }

  /** multiple to-one: a list (never null) holding a reference for each non-null mapped field; empty exactly when all are null. */
  lemma {:induction false} MultipleManyToOneCollectsNonNull(data: map<string, Value>, targets: TargetMap, x: Value)
    ensures BuildMultipleManyToOne(data, targets) == [] <==>
              forall j :: 0 <= j < |targets| ==> FieldValue(data, targets[j].1) == Null
    ensures x in BuildMultipleManyToOne(data, targets) <==>
              exists j :: 0 <= j < |targets| && FieldValue(data, targets[j].1) != Null
                && x == EntityRef(targets[j].0, FieldValue(data, targets[j].1))
    ensures |BuildMultipleManyToOne(data, targets)| <= |targets|
  {
    if targets != [] {
      MultipleManyToOneCollectsNonNull(data, targets[1..], x);
      forall j | 0 < j < |targets| ensures targets[j] == targets[1..][j - 1] { }
      if x in BuildMultipleManyToOne(data, targets[1..]) {
        var j :| 0 <= j < |targets[1..]| && FieldValue(data, targets[1..][j].1) != Null
                 && x == EntityRef(targets[1..][j].0, FieldValue(data, targets[1..][j].1));
        assert targets[j + 1] == targets[1..][j];
      }
    }
  }

  /** to-many: a list holding a reference for each item of each mapped list; empty exactly when every mapped list is empty. */
  lemma {:induction false} ManyToManyCollectsItems(data: map<string, Value>, targets: TargetMap, x: Value)
    ensures BuildManyToMany(data, targets) == [] <==>
              forall j :: 0 <= j < |targets| ==> !(FieldValue(data, targets[j].1).List? && FieldValue(data, targets[j].1).items != [])
    ensures x in BuildManyToMany(data, targets) <==>
              exists j, k :: 0 <= j < |targets| && FieldValue(data, targets[j].1).List?
                && 0 <= k < |FieldValue(data, targets[j].1).items|
                && x == EntityRef(targets[j].0, FieldValue(data, targets[j].1).items[k])
  {
    if targets != [] {
      ManyToManyCollectsItems(data, targets[1..], x);
      forall j | 0 < j < |targets| ensures targets[j] == targets[1..][j - 1] { }
      var head := ListRefs(targets[0].0, FieldValue(data, targets[0].1));
      if x in head {
        var k :| 0 <= k < |head| && head[k] == x;
        assert FieldValue(data, targets[0].1).List?;
      }
      if x in BuildManyToMany(data, targets[1..]) {
        var j, k :| 0 <= j < |targets[1..]| && FieldValue(data, targets[1..][j].1).List?
                && 0 <= k < |FieldValue(data, targets[1..][j].1).items|
                && x == EntityRef(targets[1..][j].0, FieldValue(data, targets[1..][j].1).items[k]);
        assert targets[j + 1] == targets[1..][j];
      }
      if x !in BuildManyToMany(data, targets) {
        forall j, k | 0 <= j < |targets| && FieldValue(data, targets[j].1).List?
                && 0 <= k < |FieldValue(data, targets[j].1).items|
          ensures x != EntityRef(targets[j].0, FieldValue(data, targets[j].1).items[k])
        {
          if j == 0 {
            assert head[k] == EntityRef(targets[0].0, FieldValue(data, targets[0].1).items[k]);
          }
        }
      }
    }
  }

  /** multiple to-one, in mapping order: the list for `a + b` is the list for `a` followed by the list for `b`. */
  lemma {:induction false} MultipleManyToOneAppend(data: map<string, Value>, a: TargetMap, b: TargetMap)
    ensures BuildMultipleManyToOne(data, a + b) == BuildMultipleManyToOne(data, a) + BuildMultipleManyToOne(data, b)
  {
    if a == [] {
      assert a + b == b;
    } else {
      assert (a + b)[0] == a[0];
      assert (a + b)[1..] == a[1..] + b;
      MultipleManyToOneAppend(data, a[1..], b);
    }
  }

  /**
   * multiple to-one, one mapped field at a time: appending a target appends exactly one
   * reference when its field is not null, and nothing when it is.
   */
  lemma MultipleManyToOneSnoc(data: map<string, Value>, a: TargetMap, t: (string, string))
    ensures BuildMultipleManyToOne(data, a + [t])
              == BuildMultipleManyToOne(data, a)
                 + (if FieldValue(data, t.1) != Null then [EntityRef(t.0, FieldValue(data, t.1))] else [])
  {
    MultipleManyToOneAppend(data, a, [t]);
  }

  /** to-many, in mapping order: the list for `a + b` is the list for `a` followed by the list for `b`. */
  lemma {:induction false} ManyToManyAppend(data: map<string, Value>, a: TargetMap, b: TargetMap)
    ensures BuildManyToMany(data, a + b) == BuildManyToMany(data, a) + BuildManyToMany(data, b)
  {
    if a == [] {
      assert a + b == b;
    } else {
      assert (a + b)[0] == a[0];
      assert (a + b)[1..] == a[1..] + b;
      ManyToManyAppend(data, a[1..], b);
    }
  }

  /** to-many, one mapped field at a time: appending a target appends one reference per item of its list, in list order. */
  lemma ManyToManySnoc(data: map<string, Value>, a: TargetMap, t: (string, string))
    ensures BuildManyToMany(data, a + [t]) == BuildManyToMany(data, a) + ListRefs(t.0, FieldValue(data, t.1))
  {
    ManyToManyAppend(data, a, [t]);
  }
}
