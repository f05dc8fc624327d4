/** What a projection answers, told without the code: the keys, their order, and what stands under each. */
module Response {
  import opened Json
  import opened Options
  import opened Project
  import opened Projections
  import opened Schema
  import opened SchemaTransform

  /** The field is in the row; a `__typename` selection, that its type is known. */
  predicate Answered(field: ProjectedField, m: Map<Value>, currentType: Option<string>) {
    if field.IsTypename() then TypenameFor(field, m, currentType).Some? else field.ValueIn(m).Some?
  }

  /** The outputs of the fields found in the row, in selection order. */
  function AnsweredOutputs(fields: seq<ProjectedField>, m: Map<Value>, currentType: Option<string>): seq<string> {
    if fields == [] then []
    else
      var (front, last) := (fields[..|fields| - 1], fields[|fields| - 1]);
      var outputs := AnsweredOutputs(front, m, currentType);
      if Answered(last, m, currentType) then outputs + [last.output] else outputs
  }

  /** The last field found in the row that is written under `k`; the number of fields when there is none. */
  function LastAnswered(fields: seq<ProjectedField>, m: Map<Value>, currentType: Option<string>, k: string): (j: nat)
    ensures j <= |fields|
    ensures j < |fields| ==> fields[j].output == k && Answered(fields[j], m, currentType)
    ensures forall l :: (if j < |fields| then j + 1 else 0) <= l < |fields| ==>
              fields[l].output != k || !Answered(fields[l], m, currentType)
  {
    if fields == [] then 0
    else
      var last := |fields| - 1;
      if fields[last].output == k && Answered(fields[last], m, currentType) then last
      else
        var j := LastAnswered(fields[..last], m, currentType, k);
        if j < last then j else |fields|
  }

  /** `r` answers the selection `p` on the row `v`. */
  ghost predicate IsResponse(
      r: Value, v: Value, currentType: Option<string>, p: Projection, registry: SchemaRegistry, inject: bool)
    decreases p, 1, v
  {
    match v
    case Array(items) =>
      && r.Array?
      && |r.items| == |items|
      && forall i :: 0 <= i < |items| ==> IsResponse(r.items[i], items[i], currentType, p, registry, inject)
    case Object(m) =>
      && r.Object?
      && Keys(r.fields) ==
         FirstOccurrences(Keys(Head(currentType, inject)) + AnsweredOutputs(p.fields, m, currentType))
      && forall i :: 0 <= i < |r.fields| ==> IsEntry(r.fields[i], m, currentType, p, registry, inject)
    case _ => r == v
  }

  /** What may stand under a key: the answer of the last field written there, else the injected tag. */
  ghost predicate IsEntry(
      e: Entry<Value>, m: Map<Value>, currentType: Option<string>, p: Projection, registry: SchemaRegistry,
      inject: bool)
    decreases p, 0
  {
    var j := LastAnswered(p.fields, m, currentType, e.key);
    if j < |p.fields| then IsAnswer(e.value, p.fields[j], m, currentType, registry, inject)
    else inject && currentType.Some? && e == Tag(currentType.value)
  }

  /** A field's answer: its type's name, its value as it stands, or its value's response to its own selection. */
  ghost predicate IsAnswer(
      x: Value, field: ProjectedField, m: Map<Value>, currentType: Option<string>, registry: SchemaRegistry,
      inject: bool)
    decreases field
  {
    if field.IsTypename() then x.String? && AnswersTypename(x.text, field, m, currentType)
    else
      var found := field.ValueIn(m);
      && found.Some?
      && match field.children
         case Some(children) =>
           forall t | IsTypeBelow(t, field, currentType, registry) ::
             IsResponse(x, found.value, t, children, registry, inject)
         case None => x == found.value
  }

  lemma {:induction false} FoundKeys(
      fields: seq<ProjectedField>, answers: seq<Option<Value>>, m: Map<Value>, currentType: Option<string>)
    requires |fields| == |answers|
    requires forall i :: 0 <= i < |fields| ==> (answers[i].Some? <==> Answered(fields[i], m, currentType))
    ensures Keys(Found(fields, answers)) == AnsweredOutputs(fields, m, currentType)
  {
    hide Answered;
    if fields != [] {
      var n := |fields| - 1;
      FoundKeys(fields[..n], answers[..n], m, currentType);
    }
  }

  lemma {:induction false} FoundLast(
      fields: seq<ProjectedField>, answers: seq<Option<Value>>, m: Map<Value>, currentType: Option<string>, k: string)
    requires |fields| == |answers|
    requires forall i :: 0 <= i < |fields| ==> (answers[i].Some? <==> Answered(fields[i], m, currentType))
    ensures var j := LastAnswered(fields, m, currentType, k);
      LastWrite(Found(fields, answers), k) == if j < |fields| then answers[j] else None
  {
    hide Answered;
    if fields != [] {
      var n := |fields| - 1;
      FoundLast(fields[..n], answers[..n], m, currentType, k);
      var front := Found(fields[..n], answers[..n]);
      if answers[n].Some? {
        assert (front + [Entry(fields[n].output, answers[n].value)])[..|front|] == front;
      }
    }
  }

  lemma AnswersAnswered(
      m: Map<Value>, currentType: Option<string>, p: Projection, registry: SchemaRegistry, inject: bool)
    ensures forall i :: 0 <= i < |p.fields| ==>
      (Answers(m, currentType, p, registry, inject)[i].Some? <==> Answered(p.fields[i], m, currentType))
  {
  }

  lemma EntryIff(
      e: Entry<Value>, m: Map<Value>, currentType: Option<string>, p: Projection, registry: SchemaRegistry,
      inject: bool)
    requires forall j :: 0 <= j < |p.fields| ==>
      (IsAnswer(e.value, p.fields[j], m, currentType, registry, inject) <==>
       Answer(p.fields[j], m, currentType, registry, inject) == Some(e.value))
    ensures IsEntry(e, m, currentType, p, registry, inject) <==>
            LastWrite(Head(currentType, inject) + Found(p.fields, Answers(m, currentType, p, registry, inject)), e.key)
            == Some(e.value)
  {
    hide IsAnswer, Answer, LastAnswered, Found, Answered;
    var head, answers := Head(currentType, inject), Answers(m, currentType, p, registry, inject);
    AnswersAnswered(m, currentType, p, registry, inject);
    FoundLast(p.fields, answers, m, currentType, e.key);
    LastWriteConcat(head, Found(p.fields, answers), e.key);
    var j := LastAnswered(p.fields, m, currentType, e.key);
    assert j < |p.fields| ==> answers[j] == Answer(p.fields[j], m, currentType, registry, inject);
  }

  /** The code's result is the one response to the selection: its keys are the injected `__typename` and the
      outputs of the selected fields found in the row, in selection order, with what the selection asks for
      under each, at every depth; for every row, type, projection and registry. */
  lemma {:induction false} ResponseIff(
      r: Value, v: Value, currentType: Option<string>, p: Projection, registry: SchemaRegistry, inject: bool)
    ensures IsResponse(r, v, currentType, p, registry, inject) <==>
            r == Projected(v, currentType, p, registry, inject)
    decreases p, 1, v
  {
    match v
    case Array(items) =>
      if r.Array? && |r.items| == |items| {
        forall i | 0 <= i < |items|
          ensures IsResponse(r.items[i], items[i], currentType, p, registry, inject) <==>
                  r.items[i] == Projected(items[i], currentType, p, registry, inject)
        {
          ResponseIff(r.items[i], items[i], currentType, p, registry, inject);
        }
      }
    case Object(m) =>
      if r.Object? {
        forall i | 0 <= i < |r.fields|
          ensures IsEntry(r.fields[i], m, currentType, p, registry, inject) <==>
                  LastWrite(Head(currentType, inject) + Found(p.fields, Answers(m, currentType, p, registry, inject)),
                            r.fields[i].key) == Some(r.fields[i].value)
        {
          AnswersIff(r.fields[i].value, m, currentType, p, registry, inject);
          EntryIff(r.fields[i], m, currentType, p, registry, inject);
        }
        ObjectResponseIff(r.fields, m, currentType, p, registry, inject);
      }
    case _ =>
  }

  lemma ObjectResponseIff(
      r: Map<Value>, m: Map<Value>, currentType: Option<string>, p: Projection, registry: SchemaRegistry, inject: bool)
    ensures var writes := Head(currentType, inject) + Found(p.fields, Answers(m, currentType, p, registry, inject));
      Object(r) == Projected(Object(m), currentType, p, registry, inject) <==>
      && Keys(r) == FirstOccurrences(Keys(Head(currentType, inject)) + AnsweredOutputs(p.fields, m, currentType))
      && forall i :: 0 <= i < |r| ==> LastWrite(writes, r[i].key) == Some(r[i].value)
  {
    hide Collect, Found, LastWrite, FirstOccurrences, AnsweredOutputs, Answers;
    var head, answers := Head(currentType, inject), Answers(m, currentType, p, registry, inject);
    AnswersAnswered(m, currentType, p, registry, inject);
    FoundKeys(p.fields, answers, m, currentType);
    assert Keys(head + Found(p.fields, answers)) == Keys(head) + Keys(Found(p.fields, answers));
    CollectIff(head + Found(p.fields, answers), r);
  }

  lemma {:induction false} AnswersIff(
      x: Value, m: Map<Value>, currentType: Option<string>, p: Projection, registry: SchemaRegistry, inject: bool)
    ensures forall j :: 0 <= j < |p.fields| ==>
      (IsAnswer(x, p.fields[j], m, currentType, registry, inject) <==>
       Answer(p.fields[j], m, currentType, registry, inject) == Some(x))
    decreases p, 0
  {
    forall j | 0 <= j < |p.fields|
      ensures IsAnswer(x, p.fields[j], m, currentType, registry, inject) <==>
              Answer(p.fields[j], m, currentType, registry, inject) == Some(x)
    {
      var field := p.fields[j];
      TypenameForIff(field, m, currentType);
      NestedTypeIff(field, currentType, registry);
      if !field.IsTypename() && field.ValueIn(m).Some? && field.children.Some? {
        ResponseIff(x, field.ValueIn(m).value, NestedType(field, currentType, registry), field.children.value,
                    registry, inject);
      }
    }
  }

  // ----- order -----

  lemma {:induction false} AnsweredOutputsDistinct(
      fields: seq<ProjectedField>, m: Map<Value>, currentType: Option<string>)
    requires DistinctHere(fields)
    ensures forall i, j :: 0 <= i < j < |AnsweredOutputs(fields, m, currentType)| ==>
      AnsweredOutputs(fields, m, currentType)[i] != AnsweredOutputs(fields, m, currentType)[j]
    ensures forall k <- AnsweredOutputs(fields, m, currentType) ::
      exists i :: 0 <= i < |fields| && fields[i].output == k
  {
    hide Answered;
    if fields != [] {
      var n := |fields| - 1;
      AnsweredOutputsDistinct(fields[..n], m, currentType);
      var front := AnsweredOutputs(fields[..n], m, currentType);
      forall k <- front
        ensures exists i :: 0 <= i < n && fields[i].output == k
      {
        var i :| 0 <= i < n && fields[..n][i].output == k;
        assert fields[i].output == k;
      }
      forall l | 0 <= l < |front|
        ensures front[l] != fields[n].output
      {
        assert front[l] in front;
        var i :| 0 <= i < n && fields[i].output == front[l];
      }
      var all := AnsweredOutputs(fields, m, currentType);
      forall k <- all
        ensures exists i :: 0 <= i < |fields| && fields[i].output == k
      {
        if k !in front {
          assert fields[n].output == k;
        }
      }
    }
  }

  /** With distinct outputs, as every built projection has, the keys of an answered object are exactly the
      outputs of the fields found, in selection order, after the injected tag; and each of these fields has
      its own answer under its output. */
  lemma SelectionOrder(
      m: Map<Value>, currentType: Option<string>, p: Projection, registry: SchemaRegistry, inject: bool, r: Map<Value>)
    requires DistinctHere(p.fields) && Object(r) == Projected(Object(m), currentType, p, registry, inject)
    ensures var outputs := AnsweredOutputs(p.fields, m, currentType);
      Keys(r) == if inject && currentType.Some? then [TYPENAME] + DropKey(outputs, TYPENAME) else outputs
    ensures forall j :: 0 <= j < |p.fields| && Answered(p.fields[j], m, currentType) ==>
      && Has(r, p.fields[j].output)
      && IsAnswer(Lookup(r, p.fields[j].output).value, p.fields[j], m, currentType, registry, inject)
  {
    hide Collect, Found, LastWrite, FirstOccurrences, AnsweredOutputs, Answer, IsAnswer, Answered, LastAnswered;
    var head, answers := Head(currentType, inject), Answers(m, currentType, p, registry, inject);
    var outputs := AnsweredOutputs(p.fields, m, currentType);
    ObjectResponseIff(r, m, currentType, p, registry, inject);
    AnsweredOutputsDistinct(p.fields, m, currentType);
    if inject && currentType.Some? {
      FirstOccurrencesAfter(TYPENAME, outputs);
      assert Keys(head) == [TYPENAME];
    } else {
      FirstOccurrencesUnique(outputs);
      assert Keys(head) + outputs == outputs;
    }
    AnswersAnswered(m, currentType, p, registry, inject);
    forall j | 0 <= j < |p.fields| && Answered(p.fields[j], m, currentType)
      ensures Has(r, p.fields[j].output)
      ensures IsAnswer(Lookup(r, p.fields[j].output).value, p.fields[j], m, currentType, registry, inject)
    {
      var k := p.fields[j].output;
      FoundLast(p.fields, answers, m, currentType, k);
      assert LastAnswered(p.fields, m, currentType, k) == j;
      LastWriteConcat(head, Found(p.fields, answers), k);
      LookupWritten(r, m, currentType, p, registry, inject, k);
      AnswersIff(Lookup(r, k).value, m, currentType, p, registry, inject);
      assert answers[j] == Answer(p.fields[j], m, currentType, registry, inject);
    }
  }

  lemma LookupWritten(
      r: Map<Value>, m: Map<Value>, currentType: Option<string>, p: Projection, registry: SchemaRegistry, inject: bool,
      k: string)
    requires Object(r) == Projected(Object(m), currentType, p, registry, inject)
    ensures Lookup(r, k) ==
            LastWrite(Head(currentType, inject) + Found(p.fields, Answers(m, currentType, p, registry, inject)), k)
    ensures Has(r, k) <==> Lookup(r, k).Some?
  {
    hide Collect, Found, LastWrite, Answers;
    LookupCollect(Head(currentType, inject) + Found(p.fields, Answers(m, currentType, p, registry, inject)), k);
  }
}
