/** The objects of `dmutils/content_loader.py`: `ContentQuestion` objects,
    which carry the number a manifest gives them, `ContentSection` objects,
    whose question lists are replaced when a manifest is filtered, and the
    `ContentManifest` that numbers, navigates and filters its sections.
    What a question says about itself is in module `Content`. */
module Manifest {

  import opened Results
  import opened Text
  import opened Values
  import opened Content

  /** A question object: its content, the number a manifest gave it, and
      for a `ContentQuestionSummary` the service data it summarises. */
  class ContentQuestion {
    var number: Option<nat>
    const content: Question
    const service: Option<map<string, Value>>

    constructor(content: Question, number: Option<nat>, service: Option<map<string, Value>>)
      ensures this.content == content && this.number == number && this.service == service
    {
      this.content := content;
      this.number := number;
      this.service := service;
    }

    /** `question.summary(service_data)`: a summary object with the same
        content and number. */
    method Summary(service: map<string, Value>) returns (r: ContentQuestion)
      ensures fresh(r) && r.content == content && r.number == number && r.service == Some(service)
    {
      r := new ContentQuestion(content, number, Some(service));
    }

    /** A new object with the same content and summarised service data,
        not yet numbered. */
    method Fresh() returns (r: ContentQuestion)
      ensures fresh(r) && r.content == content && r.number.None? && r.service == service
    {
      r := new ContentQuestion(content, None, service);
    }
  }

  /** The contents of question objects, in order. */
  function ContentsOf(qs: seq<ContentQuestion>): (r: seq<Question>)
    ensures |r| == |qs| && forall k :: 0 <= k < |qs| ==> r[k] == qs[k].content
  {
    seq(|qs|, k requires 0 <= k < |qs| => qs[k].content)
  }

  // ---------------------------------------------------------------------
  // dict.update, one result after another

  /** The first `n` maps merged in order, later keys overriding earlier
      ones; the first failure stops the merge. */
  function Merged(parts: seq<Result<map<string, Value>>>, n: nat): Result<map<string, Value>>
    requires n <= |parts|
  {
    if n == 0 then Ok(map[])
    else
      var before :- Merged(parts, n - 1);
      var part :- parts[n - 1];
      Ok(before + part)
  }

  lemma {:induction false} MergedRaiseSticks(parts: seq<Result<map<string, Value>>>, n: nat, m: nat)
    requires n <= m <= |parts| && Merged(parts, n).Raise?
    ensures Merged(parts, m) == Merged(parts, n)
    decreases m - n
  {
    if n < m {
      MergedRaiseSticks(parts, n, m - 1);
    }
  }

  /** The merge succeeds exactly when every part does, and fails with the
      error of the first part that fails. */
  lemma {:induction false} MergedFailure(parts: seq<Result<map<string, Value>>>, n: nat)
    requires n <= |parts|
    ensures Merged(parts, n).Ok? <==> forall k :: 0 <= k < n ==> parts[k].Ok?
    ensures forall k :: 0 <= k < n && parts[k].Raise? && (forall j :: 0 <= j < k ==> parts[j].Ok?) ==>
              Merged(parts, n) == Raise(parts[k].error)
  {
    if n > 0 {
      MergedFailure(parts, n - 1);
      forall k | 0 <= k < n && parts[k].Raise? && (forall j :: 0 <= j < k ==> parts[j].Ok?)
        ensures Merged(parts, n) == Raise(parts[k].error)
      {
        if k < n - 1 {
          MergedRaiseSticks(parts, n - 1, n);
        }
      }
    }
  }

  /** Every part of a successful merge succeeded. */
  lemma {:induction false} MergedParts(parts: seq<Result<map<string, Value>>>, n: nat)
    requires n <= |parts| && Merged(parts, n).Ok?
    ensures forall k :: 0 <= k < n ==> parts[k].Ok?
  {
    MergedFailure(parts, n);
  }

  /** A key is merged exactly when some part has it. */
  lemma {:induction false} MergedKey(parts: seq<Result<map<string, Value>>>, n: nat, key: string)
    requires n <= |parts| && Merged(parts, n).Ok?
    ensures key in Merged(parts, n).value <==> exists k :: 0 <= k < n && parts[k].Ok? && key in parts[k].value
  {
    if n > 0 {
      MergedKey(parts, n - 1, key);
      assert Merged(parts, n).value == Merged(parts, n - 1).value + parts[n - 1].value;
      if key in parts[n - 1].value {
        assert parts[n - 1].Ok? && key in parts[n - 1].value;
      }
    }
  }

  /** A merged key has the value of the last part that has it. */
  lemma {:induction false} MergedValue(parts: seq<Result<map<string, Value>>>, n: nat, k: nat, key: string)
    requires k < n <= |parts| && Merged(parts, n).Ok?
    requires parts[k].Ok? && key in parts[k].value
    requires forall j :: k < j < n ==> parts[j].Ok? && key !in parts[j].value
    ensures key in Merged(parts, n).value && Merged(parts, n).value[key] == parts[k].value[key]
  {
    assert Merged(parts, n).value == Merged(parts, n - 1).value + parts[n - 1].value;
    if k < n - 1 {
      MergedValue(parts, n - 1, k, key);
    }
  }

  /** `dict.update` with each part in turn, stopping at the first part
      that failed. */
  method MergeAll(parts: seq<Result<map<string, Value>>>) returns (r: Result<map<string, Value>>)
    ensures r == Merged(parts, |parts|)
  {
    var merged: map<string, Value> := map[];
    for i := 0 to |parts|
      invariant Merged(parts, i) == Ok(merged)
    {
      if parts[i].Raise? {
        MergedRaiseSticks(parts, i + 1, |parts|);
        return Raise(parts[i].error);
      }
      merged := merged + parts[i].value;
    }
    return Ok(merged);
  }

  // ---------------------------------------------------------------------
  // what a section computes from the contents of its questions

  /** `section.get_field_names()`: the form fields of its questions, one
      question after another. */
  function FieldNames(qs: seq<Question>): Result<seq<string>> {
    if qs == [] then Ok([])
    else
      var head :- FormFields(qs[0]);
      var tail :- FieldNames(qs[1..]);
      Ok(head + tail)
  }

  /** The field names exist when every question's form fields do, and are
      exactly the fields of the questions. */
  lemma {:induction false} FieldNamesMeaning(qs: seq<Question>)
    ensures FieldNames(qs).Ok? <==> forall k :: 0 <= k < |qs| ==> FormFields(qs[k]).Ok?
    ensures FieldNames(qs).Ok? ==>
              forall f :: f in FieldNames(qs).value <==> exists k :: 0 <= k < |qs| && f in FormFields(qs[k]).value
  {
    if qs != [] {
      FieldNamesMeaning(qs[1..]);
      assert forall k :: 1 <= k < |qs| ==> qs[k] == qs[1..][k - 1];
      if FieldNames(qs).Ok? {
        var head := FormFields(qs[0]).value;
        var tail := FieldNames(qs[1..]).value;
        assert FieldNames(qs).value == head + tail;
        forall f | f in tail
          ensures exists k :: 0 <= k < |qs| && f in FormFields(qs[k]).value
        {
          var k :| 0 <= k < |qs[1..]| && f in FormFields(qs[1..][k]).value;
          assert qs[k + 1] == qs[1..][k];
        }
      }
    }
  }

  /** `section.get_question_ids(type)`. */
  function QuestionIds(qs: seq<Question>, kind: Option<string>): Result<seq<string>> {
    if qs == [] then Ok([])
    else
      var head :- GetQuestionIds(qs[0], kind);
      var tail :- QuestionIds(qs[1..], kind);
      Ok(head + tail)
  }

  /** `section.get_question(field_name)`: what the first question that
      knows the field returns for it. */
  function SectionQuestion(qs: seq<Question>, field: string): (r: Option<Question>)
    ensures r.None? <==> forall k :: 0 <= k < |qs| ==> GetQuestion(qs[k], field).None?
    ensures r.Some? ==> exists k :: 0 <= k < |qs| && GetQuestion(qs[k], field) == r
                                    && forall j :: 0 <= j < k ==> GetQuestion(qs[j], field).None?
  {
    if qs == [] then None
    else if GetQuestion(qs[0], field).Some? then GetQuestion(qs[0], field)
    else
      var r := SectionQuestion(qs[1..], field);
      assert forall k :: 1 <= k < |qs| ==> qs[k] == qs[1..][k - 1];
      assert r.Some? ==> exists k :: 1 <= k < |qs| && GetQuestion(qs[k], field) == r
                                     && forall j :: 0 <= j < k ==> GetQuestion(qs[j], field).None? by {
        if r.Some? {
          var k :| 0 <= k < |qs[1..]| && GetQuestion(qs[1..][k], field) == r
                   && forall j :: 0 <= j < k ==> GetQuestion(qs[1..][j], field).None?;
          assert GetQuestion(qs[k + 1], field) == r;
        }
      }
      r
  }

  /** `section._has_assurance(key)`. */
  predicate HasAssurance(qs: seq<Question>, key: string) {
    match SectionQuestion(qs, key)
    case None => false
    case Some(q) => Truthy(Get(q, "assuranceApproach", Bool(false)))
  }

  /** `ImmutableMultiDict((k, v.strip()) for k, v in form_data.items(multi=True))`. */
  function Stripped(form: FormData): (r: FormData)
    ensures |r| == |form| && forall k :: 0 <= k < |form| ==> r[k] == (form[k].0, Strip(form[k].1))
  {
    MappedValues(form, Strip)
  }

  /** The form with `f` applied to every value. */
  function MappedValues(form: FormData, f: string -> string): (r: FormData)
    ensures |r| == |form| && forall k :: 0 <= k < |form| ==> r[k] == (form[k].0, f(form[k].1))
  {
    seq(|form|, k requires 0 <= k < |form| => (form[k].0, f(form[k].1)))
  }

  /** The form with `f` applied to every value, pair by pair. */
  method MapValues(form: FormData, f: string -> string) returns (mapped: FormData)
    ensures mapped == MappedValues(form, f)
  {
    mapped := [];
    for i := 0 to |form|
      invariant |mapped| == i && forall k :: 0 <= k < i ==> mapped[k] == (form[k].0, f(form[k].1))
    {
      mapped := mapped + [(form[i].0, f(form[i].1))];
    }
  }

  /** The data of each question, taken from the same form. */
  function QuestionDataParts(qs: seq<Question>, form: FormData, convert: Conversions): (r: seq<Result<map<string, Value>>>)
    ensures |r| == |qs| && forall k :: 0 <= k < |qs| ==> r[k] == QuestionData(qs[k], form, convert)
  {
    seq(|qs|, k requires 0 <= k < |qs| => QuestionData(qs[k], form, convert))
  }

  /** The data of a section's questions, later ones overriding. */
  function SectionData(qs: seq<Question>, form: FormData, convert: Conversions): Result<map<string, Value>> {
    Merged(QuestionDataParts(qs, form, convert), |qs|)
  }

  /** A section's data is keyed by its field names only. */
  lemma {:induction false} SectionDataKeys(qs: seq<Question>, form: FormData, convert: Conversions)
    requires FieldNames(qs).Ok? && SectionData(qs, form, convert).Ok?
    ensures forall k :: k in SectionData(qs, form, convert).value ==> k in FieldNames(qs).value
  {
    var parts := QuestionDataParts(qs, form, convert);
    FieldNamesMeaning(qs);
    forall key | key in SectionData(qs, form, convert).value
      ensures key in FieldNames(qs).value
    {
      MergedKey(parts, |qs|, key);
      var k :| 0 <= k < |qs| && parts[k].Ok? && key in parts[k].value;
      assert FormFields(qs[k]).Ok?;
      QuestionDataKeys(qs[k], form, convert);
      assert key in FormFields(qs[k]).value;
    }
  }

  /** The stripped form has the keys of the posted one, and its first value
      under a key is the first posted value with its surrounding whitespace
      removed. */
  lemma {:induction false} StrippedFirst(form: FormData, key: string)
    ensures Posted(Stripped(form), key) <==> Posted(form, key)
    ensures Posted(form, key) ==> First(Stripped(form), key) == Strip(First(form, key))
    decreases |form|
  {
    if form == [] {
      return;
    }
    var s := Stripped(form);
    assert s[0] == (form[0].0, Strip(form[0].1));
    if form[0].0 != key {
      StrippedFirst(form[1..], key);
      assert Stripped(form[1..]) == s[1..];
      PostedTail(form, key);
      PostedTail(s, key);
    }
  }

  /** Past a first entry under another key, the rest of the form decides. */
  lemma {:induction false} PostedTail(form: FormData, key: string)
    requires form != [] && form[0].0 != key
    ensures Posted(form, key) <==> Posted(form[1..], key)
    ensures Posted(form, key) ==> First(form, key) == First(form[1..], key)
  {
    if Posted(form, key) {
      var k :| 0 <= k < |form| && form[k].0 == key;
      assert form[1..][k - 1] == form[k];
    }
    if Posted(form[1..], key) {
      var k :| 0 <= k < |form[1..]| && form[1..][k].0 == key;
      assert form[k + 1] == form[1..][k];
    }
  }

  /** `any(service.get(key) != update_data[key] for key in update_data)`. */
  function AnyChanged(service: map<string, Value>, update: seq<(string, Value)>): (r: bool)
    ensures r <==> exists k :: 0 <= k < |update| && ServiceGet(service, Some(update[k].0), Null) != update[k].1
  {
    if update == [] then false
    else
      var rest := AnyChanged(service, update[1..]);
      assert forall k :: 1 <= k < |update| ==> update[k] == update[1..][k - 1];
      assert rest ==> exists k :: 1 <= k < |update| && ServiceGet(service, Some(update[k].0), Null) != update[k].1 by {
        if rest {
          var k :| 0 <= k < |update[1..]| && ServiceGet(service, Some(update[1..][k].0), Null) != update[1..][k].1;
          assert update[k + 1] == update[1..][k];
        }
      }
      ServiceGet(service, Some(update[0].0), Null) != update[0].1 || rest
  }

  /** `any(form_field not in service for form_field in names)`. */
  function AnyMissing(service: map<string, Value>, names: seq<string>): (r: bool)
    ensures r <==> exists f :: f in names && f !in service
  {
    if names == [] then false
    else
      assert forall f :: f in names <==> f == names[0] || f in names[1..];
      names[0] !in service || AnyMissing(service, names[1..])
  }

  /** `section.has_changes_to_save(service, update_data)`: an update key
      whose value differs from the service's, or a field of the section the
      service has no answer for. */
  function HasChangesToSave(qs: seq<Question>, service: map<string, Value>, update: seq<(string, Value)>): (r: Result<bool>)
    ensures r.Ok? <==> FieldNames(qs).Ok?
    ensures r.Ok? ==> (r.value <==>
                         (exists k :: 0 <= k < |update| && ServiceGet(service, Some(update[k].0), Null) != update[k].1)
                         || exists f :: f in FieldNames(qs).value && f !in service)
  {
    var changed := AnyChanged(service, update);
    var names :- FieldNames(qs);
    Ok(changed || AnyMissing(service, names))
  }

  /** The key of an error: the question's id, with `--assurance` for a
      missing assurance. */
  function ErrorKey(id: string, messageKey: Value): string {
    if messageKey == Str("assurance_required") then AssuranceKey(id) else id
  }

  /** The `--assurance` key is built with a byte-string template, which
      cannot take an id outside ASCII. */
  predicate ErrorKeyEncodes(id: string, messageKey: Value) {
    messageKey != Str("assurance_required") || IsAscii(id)
  }

  /** The entry `get_error_messages` makes for one API error: the question
      that holds the field must exist; then its message, its key and its
      label are found, in that order, the first failure being raised. */
  function ErrorEntry(qs: seq<Question>, error: (string, Value)): (r: Result<map<string, Value>>)
    ensures SectionQuestion(qs, error.0).None? ==> r == Raise(QuestionNotFound(error.0))
    ensures SectionQuestion(qs, error.0).Some? && ErrorMessage(SectionQuestion(qs, error.0).value, error.1, Some(error.0)).Raise? ==>
              r == Raise(ErrorMessage(SectionQuestion(qs, error.0).value, error.1, Some(error.0)).error)
    ensures SectionQuestion(qs, error.0).Some? && ErrorMessage(SectionQuestion(qs, error.0).value, error.1, Some(error.0)).Ok?
            && !ErrorKeyEncodes(SectionQuestion(qs, error.0).value.id, error.1) ==>
              r == Raise(UnicodeEncodeError)
    ensures r.Ok? <==> SectionQuestion(qs, error.0).Some?
                       && ErrorMessage(SectionQuestion(qs, error.0).value, error.1, Some(error.0)).Ok?
                       && ErrorKeyEncodes(SectionQuestion(qs, error.0).value.id, error.1)
                       && Label(SectionQuestion(qs, error.0).value).Ok?
    ensures r.Ok? ==> r.value.Keys == {ErrorKey(SectionQuestion(qs, error.0).value.id, error.1)}
                      && r.value[ErrorKey(SectionQuestion(qs, error.0).value.id, error.1)]
                         == Dict(map["input_name" := Str(error.0),
                                     "question" := Label(SectionQuestion(qs, error.0).value).value,
                                     "message" := ErrorMessage(SectionQuestion(qs, error.0).value, error.1, Some(error.0)).value])
  {
    match SectionQuestion(qs, error.0)
    case None => Raise(QuestionNotFound(error.0))
    case Some(q) =>
      var message :- ErrorMessage(q, error.1, Some(error.0));
      if !ErrorKeyEncodes(q.id, error.1) then Raise(UnicodeEncodeError)
      else
        var shownLabel :- Label(q);
        Ok(map[ErrorKey(q.id, error.1) :=
                 Dict(map["input_name" := Str(error.0), "question" := shownLabel, "message" := message])])
  }

  function ErrorEntries(qs: seq<Question>, errors: seq<(string, Value)>): (r: seq<Result<map<string, Value>>>)
    ensures |r| == |errors| && forall k :: 0 <= k < |errors| ==> r[k] == ErrorEntry(qs, errors[k])
  {
    seq(|errors|, k requires 0 <= k < |errors| => ErrorEntry(qs, errors[k]))
  }

  /** The error map of `get_error_messages`, a later entry for the same
      key overriding. */
  function ErrorMessages(qs: seq<Question>, errors: seq<(string, Value)>): Result<map<string, Value>> {
    Merged(ErrorEntries(qs, errors), |errors|)
  }

  /** An error for a field no question of the section knows is refused with
      `QuestionNotFoundError`, unless an earlier error already failed. */
  lemma {:induction false} ErrorMessagesUnknownField(qs: seq<Question>, errors: seq<(string, Value)>, k: nat)
    requires k < |errors| && SectionQuestion(qs, errors[k].0).None?
    ensures ErrorMessages(qs, errors).Raise?
    ensures (forall j :: 0 <= j < k ==> ErrorEntry(qs, errors[j]).Ok?) ==>
              ErrorMessages(qs, errors) == Raise(QuestionNotFound(errors[k].0))
  {
    MergedFailure(ErrorEntries(qs, errors), |errors|);
  }

  /** The error map is keyed by the ids of the questions the errors are
      about, with `--assurance` for missing assurances. */
  lemma {:induction false} ErrorMessagesKeys(qs: seq<Question>, errors: seq<(string, Value)>)
    requires ErrorMessages(qs, errors).Ok?
    ensures forall k :: 0 <= k < |errors| ==> SectionQuestion(qs, errors[k].0).Some?
    ensures forall key :: key in ErrorMessages(qs, errors).value <==>
              exists k :: 0 <= k < |errors| && key == ErrorKey(SectionQuestion(qs, errors[k].0).value.id, errors[k].1)
  {
    MergedParts(ErrorEntries(qs, errors), |errors|);
    forall key
      ensures key in ErrorMessages(qs, errors).value <==>
              exists k :: 0 <= k < |errors| && key == ErrorKey(SectionQuestion(qs, errors[k].0).value.id, errors[k].1)
    {
      ErrorMessagesKey(qs, errors, key);
    }
  }

  /** One key of the error messages: it is the key of one of the errors. */
  lemma {:induction false} ErrorMessagesKey(qs: seq<Question>, errors: seq<(string, Value)>, key: string)
    requires ErrorMessages(qs, errors).Ok?
    ensures key in ErrorMessages(qs, errors).value <==>
            exists k :: 0 <= k < |errors| && SectionQuestion(qs, errors[k].0).Some? && key == ErrorKey(SectionQuestion(qs, errors[k].0).value.id, errors[k].1)
  {
    if key in ErrorMessages(qs, errors).value {
      var k := ErrorMessagesKeyFrom(qs, errors, key);
    }
    if exists k :: 0 <= k < |errors| && SectionQuestion(qs, errors[k].0).Some? && key == ErrorKey(SectionQuestion(qs, errors[k].0).value.id, errors[k].1) {
      var k :| 0 <= k < |errors| && SectionQuestion(qs, errors[k].0).Some? && key == ErrorKey(SectionQuestion(qs, errors[k].0).value.id, errors[k].1);
      ErrorMessagesKeyOf(qs, errors, k);
    }
  }

  /** A key of the error messages comes from error `k`. */
  lemma {:induction false} ErrorMessagesKeyFrom(qs: seq<Question>, errors: seq<(string, Value)>, key: string) returns (k: nat)
    requires ErrorMessages(qs, errors).Ok? && key in ErrorMessages(qs, errors).value
    ensures k < |errors| && SectionQuestion(qs, errors[k].0).Some?
            && key == ErrorKey(SectionQuestion(qs, errors[k].0).value.id, errors[k].1)
  {
    var parts := ErrorEntries(qs, errors);
    MergedKey(parts, |errors|, key);
    k :| 0 <= k < |errors| && parts[k].Ok? && key in parts[k].value;
    ErrorEntryKey(qs, errors[k], key);
  }

  lemma {:induction false} ErrorEntryKey(qs: seq<Question>, error: (string, Value), key: string)
    requires ErrorEntry(qs, error).Ok? && key in ErrorEntry(qs, error).value
    ensures SectionQuestion(qs, error.0).Some? && key == ErrorKey(SectionQuestion(qs, error.0).value.id, error.1)
  {
  }

  /** Error `k` has its key among the error messages. */
  lemma {:induction false} ErrorMessagesKeyOf(qs: seq<Question>, errors: seq<(string, Value)>, k: nat)
    requires ErrorMessages(qs, errors).Ok? && k < |errors| && SectionQuestion(qs, errors[k].0).Some?
    ensures ErrorKey(SectionQuestion(qs, errors[k].0).value.id, errors[k].1) in ErrorMessages(qs, errors).value
  {
    var parts := ErrorEntries(qs, errors);
    var key := ErrorKey(SectionQuestion(qs, errors[k].0).value.id, errors[k].1);
    MergedParts(parts, |errors|);
    MergedKey(parts, |errors|, key);
    assert key in parts[k].value;
  }

  /** `data[key].get(name, None)`: only a dictionary has `get`. */
  function DictGet(v: Value, name: string): (r: Result<Value>)
    ensures v.Dict? ==> r == Ok(if name in v.entries then v.entries[name] else Null)
    ensures !v.Dict? ==> r == Raise(AttributeError("get"))
  {
    match v
    case Dict(entries) => Ok(if name in entries then entries[name] else Null)
    case _ => Raise(AttributeError("get"))
  }

  /** What `unformat_data` makes of one service entry. */
  function Unpacked(qs: seq<Question>, entry: (string, Value)): (r: Result<map<string, Value>>)
    ensures r.Ok? ==> r.value.Keys == if HasAssurance(qs, entry.0) then {entry.0, AssuranceKey(entry.0)} else {entry.0}
  {
    var (key, value) := entry;
    if HasAssurance(qs, key) then
      var assurance :- DictGet(value, "assurance");
      var plain :- DictGet(value, "value");
      Ok(map[AssuranceKey(key) := assurance, key := plain])
    else Ok(map[key := value])
  }

  function UnpackedEntries(qs: seq<Question>, data: seq<(string, Value)>): (r: seq<Result<map<string, Value>>>)
    ensures |r| == |data| && forall k :: 0 <= k < |data| ==> r[k] == Unpacked(qs, data[k])
  {
    seq(|data|, k requires 0 <= k < |data| => Unpacked(qs, data[k]))
  }

  /** `section.unformat_data(data)` on the service entries. */
  function Unformatted(qs: seq<Question>, data: seq<(string, Value)>): Result<map<string, Value>> {
    Merged(UnpackedEntries(qs, data), |data|)
  }

  /** No key twice and no key another's assurance key: the data as the API
      returns it. */
  predicate SeparateKeys(data: seq<(string, Value)>) {
    (forall i, j :: 0 <= i < j < |data| ==> data[i].0 != data[j].0)
    && forall i, j :: 0 <= i < |data| && 0 <= j < |data| ==> data[i].0 != AssuranceKey(data[j].0)
  }

  /** What `unformat_data` is meant to make of one entry. */
  predicate UnpackedEntry(qs: seq<Question>, m: map<string, Value>, key: string, value: Value) {
    if HasAssurance(qs, key) then
      value.Dict? && key in m && AssuranceKey(key) in m
      && m[key] == (if "value" in value.entries then value.entries["value"] else Null)
      && m[AssuranceKey(key)] == (if "assurance" in value.entries then value.entries["assurance"] else Null)
    else key in m && m[key] == value
  }

  lemma {:induction false} AssuranceKeyInjective(a: string, b: string)
    ensures AssuranceKey(a) == AssuranceKey(b) ==> a == b
    ensures AssuranceKey(a) != a
  {
    if AssuranceKey(a) == AssuranceKey(b) {
      assert a == AssuranceKey(a)[..|a|];
      assert b == AssuranceKey(b)[..|b|];
    }
    assert |AssuranceKey(a)| > |a|;
  }

  /** The entry at `k` is unpacked into the result. */
  /** A later entry of separate data unpacks to neither the key of entry
      `k` nor its `--assurance` key. */
  lemma {:induction false} UnpackedApart(qs: seq<Question>, data: seq<(string, Value)>, k: nat, j: nat)
    requires SeparateKeys(data) && k < j < |data| && Unpacked(qs, data[j]).Ok?
    ensures data[k].0 !in Unpacked(qs, data[j]).value && AssuranceKey(data[k].0) !in Unpacked(qs, data[j]).value
  {
    var key := data[k].0;
    AssuranceKeyInjective(data[j].0, key);
    AssuranceKeyInjective(key, data[j].0);
    assert data[j].0 != key && AssuranceKey(data[j].0) != key && data[j].0 != AssuranceKey(key);
  }

  lemma {:induction false} UnformattedAt(qs: seq<Question>, data: seq<(string, Value)>, k: nat)
    requires SeparateKeys(data) && Unformatted(qs, data).Ok? && k < |data|
    ensures UnpackedEntry(qs, Unformatted(qs, data).value, data[k].0, data[k].1)
  {
    var parts := UnpackedEntries(qs, data);
    var n := |data|;
    var key := data[k].0;
    MergedParts(parts, n);
    AssuranceKeyInjective(key, key);
    forall j | k < j < n
      ensures parts[j].Ok? && key !in parts[j].value && AssuranceKey(key) !in parts[j].value
    {
      UnpackedApart(qs, data, k, j);
    }
    MergedValue(parts, n, k, key);
    if HasAssurance(qs, key) {
      MergedValue(parts, n, k, AssuranceKey(key));
    }
  }

  /** Each assurance field is unpacked into its value and its
      `--assurance` entry; every other entry is copied unchanged; nothing
      else is added. */
  lemma {:induction false} UnformattedMeaning(qs: seq<Question>, data: seq<(string, Value)>)
    requires SeparateKeys(data) && Unformatted(qs, data).Ok?
    ensures forall k :: 0 <= k < |data| ==> UnpackedEntry(qs, Unformatted(qs, data).value, data[k].0, data[k].1)
    ensures forall key :: key in Unformatted(qs, data).value ==>
              exists k :: 0 <= k < |data| && (key == data[k].0 || (HasAssurance(qs, data[k].0) && key == AssuranceKey(data[k].0)))
  {
    var parts := UnpackedEntries(qs, data);
    forall k | 0 <= k < |data|
      ensures UnpackedEntry(qs, Unformatted(qs, data).value, data[k].0, data[k].1)
    {
      UnformattedAt(qs, data, k);
    }
    forall key | key in Unformatted(qs, data).value
      ensures exists k :: 0 <= k < |data| && (key == data[k].0 || (HasAssurance(qs, data[k].0) && key == AssuranceKey(data[k].0)))
    {
      MergedKey(parts, |data|, key);
      var k :| 0 <= k < |data| && parts[k].Ok? && key in parts[k].value;
      assert key == data[k].0 || (HasAssurance(qs, data[k].0) && key == AssuranceKey(data[k].0));
    }
  }

  /** The questions of a section that should be shown for the service, in
      their order. */
  function ShownQuestions(qs: seq<ContentQuestion>, service: map<string, Value>): Result<seq<ContentQuestion>> {
    Selected(qs, Decisions(qs, service))
  }

  /** Every question's dependencies must be evaluable; then the questions
      kept are those whose dependencies are all satisfied. */
  lemma {:induction false} ShownQuestionsMeaning(qs: seq<ContentQuestion>, service: map<string, Value>)
    ensures ShownQuestions(qs, service).Ok? <==>
              forall k :: 0 <= k < |qs| ==> ShouldBeShown(Get(qs[k].content, "depends", Null), service).Ok?
    ensures ShownQuestions(qs, service).Ok? ==>
              forall k :: 0 <= k < |ShownQuestions(qs, service).value| ==>
                ShownQuestions(qs, service).value[k] in qs
                && ShouldBeShown(Get(ShownQuestions(qs, service).value[k].content, "depends", Null), service) == Ok(true)
    ensures ShownQuestions(qs, service).Ok? ==>
              forall k :: 0 <= k < |qs| && ShouldBeShown(Get(qs[k].content, "depends", Null), service) == Ok(true) ==>
                qs[k] in ShownQuestions(qs, service).value
  {
    var decisions := Decisions(qs, service);
    var r := Selected(qs, decisions);
    SelectedMeaning(qs, decisions);
    if r.Ok? {
      forall k | 0 <= k < |r.value|
        ensures r.value[k] in qs && ShouldBeShown(Get(r.value[k].content, "depends", Null), service) == Ok(true)
      {
        var i :| 0 <= i < |qs| && qs[i] == r.value[k] && decisions[i] == Ok(true);
      }
    }
  }

  /** Whether each question should be shown. */
  function Decisions(qs: seq<ContentQuestion>, service: map<string, Value>): (r: seq<Result<bool>>)
    ensures |r| == |qs| && forall k :: 0 <= k < |qs| ==> r[k] == ShouldBeShown(Get(qs[k].content, "depends", Null), service)
  {
    seq(|qs|, k requires 0 <= k < |qs| => ShouldBeShown(Get(qs[k].content, "depends", Null), service))
  }

  /** The objects whose decision is true, in order; the first decision that
      failed stops the selection. */
  function Selected(qs: seq<ContentQuestion>, decisions: seq<Result<bool>>): Result<seq<ContentQuestion>>
    requires |decisions| == |qs|
  {
    if qs == [] then Ok([])
    else
      var head :- decisions[0];
      var tail :- Selected(qs[1..], decisions[1..]);
      Ok(if head then [qs[0]] + tail else tail)
  }

  /** `x` is one of the objects decided `true`. */
  predicate DecidedTrue(qs: seq<ContentQuestion>, decisions: seq<Result<bool>>, x: ContentQuestion)
    requires |decisions| == |qs|
  {
    exists i :: 0 <= i < |qs| && qs[i] == x && decisions[i] == Ok(true)
  }

  /** The selection succeeds when every decision does, and keeps exactly
      the objects decided `true`. */
  lemma {:induction false} SelectedMeaning(qs: seq<ContentQuestion>, decisions: seq<Result<bool>>)
    requires |decisions| == |qs|
    ensures Selected(qs, decisions).Ok? <==> forall k :: 0 <= k < |qs| ==> decisions[k].Ok?
    ensures Selected(qs, decisions).Ok? ==>
              forall k :: 0 <= k < |Selected(qs, decisions).value| ==>
                DecidedTrue(qs, decisions, Selected(qs, decisions).value[k])
    ensures Selected(qs, decisions).Ok? ==>
              forall i :: 0 <= i < |qs| && decisions[i] == Ok(true) ==> qs[i] in Selected(qs, decisions).value
  {
    SelectedOk(qs, decisions);
    if Selected(qs, decisions).Ok? {
      SelectedSources(qs, decisions);
      SelectedComplete(qs, decisions);
    }
  }

  lemma {:induction false} SelectedOk(qs: seq<ContentQuestion>, decisions: seq<Result<bool>>)
    requires |decisions| == |qs|
    ensures Selected(qs, decisions).Ok? <==> forall k :: 0 <= k < |qs| ==> decisions[k].Ok?
  {
    if qs != [] {
      SelectedOk(qs[1..], decisions[1..]);
      assert forall k :: 1 <= k < |qs| ==> decisions[k] == decisions[1..][k - 1];
    }
  }

  lemma {:induction false} SelectedSources(qs: seq<ContentQuestion>, decisions: seq<Result<bool>>)
    requires |decisions| == |qs| && Selected(qs, decisions).Ok?
    ensures forall k :: 0 <= k < |Selected(qs, decisions).value| ==>
              DecidedTrue(qs, decisions, Selected(qs, decisions).value[k])
  {
    if qs != [] {
      SelectedSources(qs[1..], decisions[1..]);
      var r := Selected(qs, decisions).value;
      var head := decisions[0].value;
      var tail := Selected(qs[1..], decisions[1..]).value;
      assert r == if head then [qs[0]] + tail else tail;
      forall k | 0 <= k < |Selected(qs, decisions).value|
        ensures DecidedTrue(qs, decisions, Selected(qs, decisions).value[k])
      {
        if head && k == 0 {
          assert qs[0] == r[k] && decisions[0] == Ok(true);
        } else {
          var t := if head then k - 1 else k;
          assert r[k] == tail[t];
          var i :| 0 <= i < |qs[1..]| && qs[1..][i] == tail[t] && decisions[1..][i] == Ok(true);
          assert qs[i + 1] == r[k] && decisions[i + 1] == Ok(true);
        }
      }
    } else {
      assert Selected(qs, decisions) == Ok([]);
    }
  }

  lemma {:induction false} SelectedComplete(qs: seq<ContentQuestion>, decisions: seq<Result<bool>>)
    requires |decisions| == |qs| && Selected(qs, decisions).Ok?
    ensures forall i :: 0 <= i < |qs| && decisions[i] == Ok(true) ==> qs[i] in Selected(qs, decisions).value
  {
    if qs != [] {
      SelectedComplete(qs[1..], decisions[1..]);
      assert forall k :: 1 <= k < |qs| ==> qs[k] == qs[1..][k - 1] && decisions[k] == decisions[1..][k - 1];
    }
  }

  /** The slugs of sections. */
  function Slugs(ss: seq<ContentSection>): (r: seq<Value>)
    ensures |r| == |ss| && forall k :: 0 <= k < |ss| ==> r[k] == ss[k].slug
  {
    seq(|ss|, k requires 0 <= k < |ss| => ss[k].slug)
  }

  /** Whether each section is editable. */
  function Editables(ss: seq<ContentSection>): (r: seq<bool>)
    ensures |r| == |ss| && forall k :: 0 <= k < |ss| ==> r[k] == Truthy(ss[k].editable)
  {
    seq(|ss|, k requires 0 <= k < |ss| => Truthy(ss[k].editable))
  }

  /** The question objects of sections, section after section. */
  function Flat(ss: seq<ContentSection>): seq<ContentQuestion>
    reads ss
  {
    if ss == [] then [] else Flat(ss[..|ss| - 1]) + ss[|ss| - 1].questions
  }

  /** The first `n` objects carry their positions 1..n, each counted at its
      last occurrence (an object listed twice keeps the later number). */
  predicate NumberedUpTo(all: seq<ContentQuestion>, n: nat)
    requires n <= |all|
    reads all
  {
    forall k :: 0 <= k < n && LastOccurrence(all, k, n) ==> all[k].number == Some(k + 1)
  }

  /** No object after position `k` and before `n` is the one at `k`. */
  predicate LastOccurrence(all: seq<ContentQuestion>, k: nat, n: nat)
    requires k < n <= |all|
  {
    forall j :: k < j < n ==> all[j] != all[k]
  }

  predicate Distinct(all: seq<ContentQuestion>) {
    forall i, j :: 0 <= i < j < |all| ==> all[i] != all[j]
  }

  lemma {:induction false} FlatPrefix(ss: seq<ContentSection>, s: nat, t: nat)
    requires s <= t <= |ss|
    ensures Flat(ss[..s]) <= Flat(ss[..t])
    decreases t - s
  {
    if s < t {
      FlatPrefix(ss, s, t - 1);
      assert ss[..t][..t - 1] == ss[..t - 1];
    }
  }

  /** `get_next_section_id` from position `i` on, `current` saying whether
      the section before was the given one. */
  function NextFrom(slugs: seq<Value>, editable: seq<bool>, i: nat, current: bool, sectionId: Value, onlyEditable: bool): Option<Value>
    requires |slugs| == |editable| && i <= |slugs|
    decreases |slugs| - i
  {
    if i == |slugs| then None
    else if current && (!onlyEditable || editable[i]) then Some(slugs[i])
    else NextFrom(slugs, editable, i + 1, current || slugs[i] == sectionId, sectionId, onlyEditable)
  }

  /** `manifest.get_next_section_id(section_id, only_editable)`. */
  function NextSectionId(slugs: seq<Value>, editable: seq<bool>, sectionId: Value, onlyEditable: bool): Option<Value>
    requires |slugs| == |editable|
  {
    NextFrom(slugs, editable, 0, sectionId == Null, sectionId, onlyEditable)
  }

  /** Once the given section has been passed, the answer is the next
      section at or after `i` (the next editable one when asked for). */
  lemma {:induction false} NextAfterCurrent(slugs: seq<Value>, editable: seq<bool>, i: nat, sectionId: Value, onlyEditable: bool)
    requires |slugs| == |editable| && i <= |slugs|
    ensures NextFrom(slugs, editable, i, true, sectionId, onlyEditable)
            == (if FirstFrom(editable, i, onlyEditable) < |slugs| then Some(slugs[FirstFrom(editable, i, onlyEditable)]) else None)
    decreases |slugs| - i
  {
    if i < |slugs| && !(!onlyEditable || editable[i]) {
      NextAfterCurrent(slugs, editable, i + 1, sectionId, onlyEditable);
    }
  }

  /** The first position at or after `i` that counts. */
  function FirstFrom(editable: seq<bool>, i: nat, onlyEditable: bool): (r: nat)
    requires i <= |editable|
    ensures i <= r <= |editable| && forall j :: i <= j < r ==> onlyEditable && !editable[j]
    ensures r < |editable| ==> !onlyEditable || editable[r]
    decreases |editable| - i
  {
    if i == |editable| || !onlyEditable || editable[i] then i else FirstFrom(editable, i + 1, onlyEditable)
  }

  /** Before the given section is reached, nothing is returned; at it the
      search starts from the next one. */
  lemma {:induction false} NextBeforeCurrent(slugs: seq<Value>, editable: seq<bool>, i: nat, at: nat, sectionId: Value, onlyEditable: bool)
    requires |slugs| == |editable| && i <= at < |slugs| && slugs[at] == sectionId
    requires forall j :: i <= j < at ==> slugs[j] != sectionId
    ensures NextFrom(slugs, editable, i, false, sectionId, onlyEditable)
            == NextFrom(slugs, editable, at + 1, true, sectionId, onlyEditable)
    decreases at - i
  {
    if i < at {
      NextBeforeCurrent(slugs, editable, i + 1, at, sectionId, onlyEditable);
    }
  }

  /** The meaning of `get_next_section_id` without a known section:
      without a section id, the first section (or the first editable one);
      `None` for an id no section has. */
  lemma {:induction false} NextSectionIdMeaning(slugs: seq<Value>, editable: seq<bool>, sectionId: Value, onlyEditable: bool)
    requires |slugs| == |editable|
    ensures sectionId == Null ==>
              NextSectionId(slugs, editable, sectionId, onlyEditable)
              == (if FirstFrom(editable, 0, onlyEditable) < |slugs| then Some(slugs[FirstFrom(editable, 0, onlyEditable)]) else None)
    ensures sectionId != Null && sectionId !in slugs ==> NextSectionId(slugs, editable, sectionId, onlyEditable) == None
  {
    if sectionId == Null {
      NextAfterCurrent(slugs, editable, 0, sectionId, onlyEditable);
    }
    if sectionId != Null && sectionId !in slugs {
      NextUnknown(slugs, editable, 0, sectionId, onlyEditable);
    }
  }

  /** With a section id that some section has: the section after the first
      one with that id (or the next editable one), `None` when there is
      none. */
  lemma {:induction false} NextAfterFirst(slugs: seq<Value>, editable: seq<bool>, at: nat, sectionId: Value, onlyEditable: bool)
    requires |slugs| == |editable| && at < |slugs| && sectionId != Null && slugs[at] == sectionId
    requires forall j :: 0 <= j < at ==> slugs[j] != sectionId
    ensures NextSectionId(slugs, editable, sectionId, onlyEditable)
            == (if FirstFrom(editable, at + 1, onlyEditable) < |slugs| then Some(slugs[FirstFrom(editable, at + 1, onlyEditable)]) else None)
  {
    assert NextSectionId(slugs, editable, sectionId, onlyEditable) == NextFrom(slugs, editable, 0, false, sectionId, onlyEditable);
    NextBeforeCurrent(slugs, editable, 0, at, sectionId, onlyEditable);
    NextAfterCurrent(slugs, editable, at + 1, sectionId, onlyEditable);
  }

  lemma {:induction false} NextUnknown(slugs: seq<Value>, editable: seq<bool>, i: nat, sectionId: Value, onlyEditable: bool)
    requires |slugs| == |editable| && i <= |slugs| && sectionId !in slugs
    ensures NextFrom(slugs, editable, i, false, sectionId, onlyEditable) == None
    decreases |slugs| - i
  {
    if i < |slugs| {
      NextUnknown(slugs, editable, i + 1, sectionId, onlyEditable);
    }
  }

  // ---------------------------------------------------------------------
  // sections

  /** A section as the content files describe it. */
  datatype SectionSource = SectionSource(data: map<string, Value>, questions: Option<seq<Question>>)

  class ContentSection {
    const slug: Value
    const name: Value
    const editable: Value
    const editQuestions: Value
    const description: Value
    const summaryPageDescription: Value
    var questions: seq<ContentQuestion>

    constructor(slug: Value, name: Value, editable: Value, editQuestions: Value,
                questions: seq<ContentQuestion>, description: Value, summaryPageDescription: Value)
      ensures this.slug == slug && this.name == name && this.editable == editable
      ensures this.editQuestions == editQuestions && this.questions == questions
      ensures this.description == description && this.summaryPageDescription == summaryPageDescription
    {
      this.slug := slug;
      this.name := name;
      this.editable := editable;
      this.editQuestions := editQuestions;
      this.questions := questions;
      this.description := description;
      this.summaryPageDescription := summaryPageDescription;
    }

    /** Same attributes as `other`. */
    predicate SameAttributes(other: ContentSection) {
      slug == other.slug && name == other.name && editable == other.editable
      && editQuestions == other.editQuestions && description == other.description
      && summaryPageDescription == other.summaryPageDescription
    }

    /** The contents of the section's questions. */
    function Contents(): seq<Question>
      reads this
    {
      ContentsOf(questions)
    }

    /** `ContentSection.create(section)` for section content: every question
        a new object without a number. */
    static method Create(source: SectionSource) returns (r: Result<ContentSection>)
      ensures source.questions.None? ==> r.Raise?
      ensures r.Ok? <==> "slug" in source.data && "name" in source.data && source.questions.Some?
      ensures r.Ok? ==> fresh(r.value) && r.value.slug == source.data["slug"] && r.value.name == source.data["name"]
                        && r.value.Contents() == source.questions.value
                        && (forall k :: 0 <= k < |r.value.questions| ==> fresh(r.value.questions[k]) && r.value.questions[k].number.None?)
                        && Distinct(r.value.questions)
    {
      if "slug" !in source.data {
        return Raise(KeyError("slug"));
      }
      if "name" !in source.data {
        return Raise(KeyError("name"));
      }
      if source.questions.None? {
        return Raise(KeyError("questions"));
      }
      var contents := source.questions.value;
      var objects: seq<ContentQuestion> := [];
      for i := 0 to |contents|
        invariant |objects| == i && ContentsOf(objects) == contents[..i]
        invariant forall k :: 0 <= k < i ==> fresh(objects[k]) && objects[k].number.None?
        invariant Distinct(objects)
      {
        var q := new ContentQuestion(contents[i], None, None);
        assert forall k :: 0 <= k < |objects| ==> objects[k] != q;
        objects := objects + [q];
      }
      assert contents[..|contents|] == contents;
      var section := new ContentSection(
        source.data["slug"], source.data["name"], SectionEntry(source.data, "editable"), SectionEntry(source.data, "edit_questions"),
        objects, SectionEntry(source.data, "description"), SectionEntry(source.data, "summary_page_description"));
      return Ok(section);
    }

    /** `section.copy()`: a new section with the same attributes and a new
        list of the same question objects. */
    method Copy() returns (r: ContentSection)
      ensures fresh(r) && r.SameAttributes(this) && r.questions == questions
    {
      r := new ContentSection(slug, name, editable, editQuestions, questions, description, summaryPageDescription);
    }

    /** A copy of the section holding new question objects of the same
        contents, none numbered. */
    method FreshCopy() returns (r: ContentSection)
      ensures fresh(r) && r.SameAttributes(this) && r.Contents() == Contents()
      ensures forall k :: 0 <= k < |r.questions| ==> fresh(r.questions[k]) && r.questions[k].number.None?
      ensures Distinct(r.questions)
    {
      var copies: seq<ContentQuestion> := [];
      for i := 0 to |questions|
        invariant |copies| == i && ContentsOf(copies) == ContentsOf(questions[..i])
        invariant forall k :: 0 <= k < i ==> fresh(copies[k]) && copies[k].number.None?
        invariant Distinct(copies)
      {
        var q := questions[i].Fresh();
        assert forall k :: 0 <= k < |copies| ==> copies[k] != q;
        assert questions[..i + 1] == questions[..i] + [questions[i]];
        copies := copies + [q];
      }
      assert questions[..|questions|] == questions;
      r := new ContentSection(slug, name, editable, editQuestions, copies, description, summaryPageDescription);
    }

    /** `section.summary(service_data)`: a copy whose questions are summary
        objects of the same content and number. */
    method Summary(service: map<string, Value>) returns (r: ContentSection)
      ensures fresh(r) && r.SameAttributes(this) && |r.questions| == |questions|
      ensures r.Contents() == Contents()
      ensures forall k :: 0 <= k < |questions| ==>
                fresh(r.questions[k]) && r.questions[k].number == questions[k].number
                && r.questions[k].service == Some(service)
      ensures Distinct(r.questions)
    {
      var summaries: seq<ContentQuestion> := [];
      for i := 0 to |questions|
        invariant |summaries| == i
        invariant forall k :: 0 <= k < i ==>
                    fresh(summaries[k]) && summaries[k].content == questions[k].content
                    && summaries[k].number == questions[k].number && summaries[k].service == Some(service)
        invariant Distinct(summaries)
      {
        var s := questions[i].Summary(service);
        assert forall k :: 0 <= k < |summaries| ==> summaries[k] != s;
        summaries := summaries + [s];
      }
      r := new ContentSection(slug, name, editable, editQuestions, summaries, description, summaryPageDescription);
    }

    /** `section.get_question(field_name)`. */
    function GetQuestion(field: string): Option<Question>
      reads this
    {
      SectionQuestion(Contents(), field)
    }

    /** `section.get_question_by_slug(question_slug)`: the first question
        object whose `slug` is the given one. */
    function GetQuestionBySlug(wanted: Value): (r: Option<ContentQuestion>)
      reads this
      ensures r.Some? ==> r.value in questions && Get(r.value.content, "slug", Null) == wanted
      ensures r.None? <==> forall k :: 0 <= k < |questions| ==> Get(questions[k].content, "slug", Null) != wanted
    {
      QuestionWithSlug(questions, wanted)
    }

    /** `section.get_question_as_section(question_slug)`: a section made of
        the sub-questions of the question with that slug, editable when
        this section's questions are. */
    method GetQuestionAsSection(wanted: Value) returns (r: Result<Option<ContentSection>>)
      ensures GetQuestionBySlug(wanted).None? ==> r == Ok(None)
      ensures r.Ok? && r.value.Some? ==>
                var q := GetQuestionBySlug(wanted).value;
                fresh(r.value.value) && Attr(q.content, "slug") == Ok(r.value.value.slug)
                && Label(q.content) == Ok(r.value.value.name)
                && r.value.value.editable == editQuestions && r.value.value.editQuestions == Bool(false)
                && r.value.value.Contents() == q.content.questions
                && r.value.value.description == Get(q.content, "hint", Null)
    {
      var found := GetQuestionBySlug(wanted);
      if found.None? {
        return Ok(None);
      }
      var q := found.value;
      var questionSlug := Attr(q.content, "slug");
      if questionSlug.Raise? {
        return Raise(questionSlug.error);
      }
      var questionLabel := Label(q.content);
      if questionLabel.Raise? {
        return Raise(questionLabel.error);
      }
      var subs := q.content.questions;
      var objects: seq<ContentQuestion> := [];
      for i := 0 to |subs|
        invariant ContentsOf(objects) == subs[..i]
        invariant forall k :: 0 <= k < |objects| ==> fresh(objects[k])
      {
        var o := new ContentQuestion(subs[i], None, q.service);
        objects := objects + [o];
      }
      assert subs[..|subs|] == subs;
      var section := new ContentSection(questionSlug.value, questionLabel.value, editQuestions, Bool(false),
                                        objects, Get(q.content, "hint", Null), Null);
      return Ok(Some(section));
    }

    /** `section.get_data(form_data)`: the values posted stripped of
        surrounding whitespace, then the data of each question merged. */
    method GetData(form: FormData, convert: Conversions) returns (r: Result<map<string, Value>>)
      ensures r == SectionData(Contents(), Stripped(form), convert)
    {
      var stripped := MapValues(form, Strip);
      r := MergeAll(QuestionDataParts(Contents(), stripped, convert));
    }

    /** `section.get_error_messages(errors, lot)`: for each API error the
        question that holds the field, the key it is reported under and
        its message; the lot is not consulted. */
    method GetErrorMessages(errors: seq<(string, Value)>, lot: Value) returns (r: Result<map<string, Value>>)
      ensures r == ErrorMessages(Contents(), errors)
    {
      r := MergeAll(ErrorEntries(Contents(), errors));
    }

    /** `section.unformat_data(data)`: assurance fields unpacked into a
        value and a `--assurance` entry. */
    method UnformatData(data: seq<(string, Value)>) returns (r: Result<map<string, Value>>)
      ensures r == Unformatted(Contents(), data)
    {
      r := MergeAll(UnpackedEntries(Contents(), data));
    }
  }

  /** `section.get(key)` of section content: the entry, or `None`. */
  function SectionEntry(data: map<string, Value>, key: string): Value {
    if key in data then data[key] else Null
  }

  function QuestionWithSlug(qs: seq<ContentQuestion>, wanted: Value): (r: Option<ContentQuestion>)
    ensures r.Some? ==> r.value in qs && Get(r.value.content, "slug", Null) == wanted
    ensures r.None? <==> forall k :: 0 <= k < |qs| ==> Get(qs[k].content, "slug", Null) != wanted
  {
    if qs == [] then None
    else if Get(qs[0].content, "slug", Null) == wanted then Some(qs[0])
    else
      assert forall k :: 1 <= k < |qs| ==> qs[k] == qs[1..][k - 1];
      QuestionWithSlug(qs[1..], wanted)
  }

  // ---------------------------------------------------------------------
  // the manifest

  /** Two lists of sections with the same question lists have the same
      questions. */
  lemma {:induction false} FlatSame(a: seq<ContentSection>, b: seq<ContentSection>)
    requires |a| == |b| && forall k :: 0 <= k < |a| ==> a[k].questions == b[k].questions
    ensures Flat(a) == Flat(b)
  {
    if a != [] {
      FlatSame(a[..|a| - 1], b[..|b| - 1]);
    }
  }

  /** The questions of the sections before `s` followed by those of section
      `s` start the questions of all sections. */
  lemma {:induction false} FlatAt(ss: seq<ContentSection>, s: nat)
    requires s < |ss|
    ensures Flat(ss[..s + 1]) == Flat(ss[..s]) + ss[s].questions
    ensures Flat(ss[..s + 1]) <= Flat(ss)
  {
    assert ss[..s + 1][..s] == ss[..s];
    FlatPrefix(ss, s + 1, |ss|);
    assert ss[..|ss|] == ss;
  }

  /** Section `s`'s questions sit in the flat list right after those of the
      sections before it. */
  lemma {:induction false} FlatSlice(ss: seq<ContentSection>, s: nat)
    requires s < |ss|
    ensures |Flat(ss[..s])| + |ss[s].questions| <= |Flat(ss)|
    ensures Flat(ss)[|Flat(ss[..s])|..|Flat(ss[..s])| + |ss[s].questions|] == ss[s].questions
  {
    FlatAt(ss, s);
    var start := |Flat(ss[..s])|;
    var qs := ss[s].questions;
    forall j | 0 <= j < |qs|
      ensures Flat(ss)[start + j] == qs[j]
    {
      assert Flat(ss)[start + j] == Flat(ss[..s + 1])[start + j];
    }
  }

  /** Appending a section whose question objects are new keeps the flat
      list of objects free of repeats. */
  lemma {:induction false} FlatAppend(ss: seq<ContentSection>, s: ContentSection)
    requires Distinct(Flat(ss)) && Distinct(s.questions)
    requires forall k, j :: 0 <= k < |Flat(ss)| && 0 <= j < |s.questions| ==> Flat(ss)[k] != s.questions[j]
    ensures Flat(ss + [s]) == Flat(ss) + s.questions && Distinct(Flat(ss + [s]))
  {
    assert (ss + [s])[..|ss|] == ss;
    DistinctAppend(Flat(ss), s.questions);
  }

  /** Every question object of the sections is in their flat list. */
  lemma {:induction false} FlatHas(ss: seq<ContentSection>, s: nat, j: nat)
    requires s < |ss| && j < |ss[s].questions|
    ensures |Flat(ss[..s])| + j < |Flat(ss)| && Flat(ss)[|Flat(ss[..s])| + j] == ss[s].questions[j]
    ensures ss[s].questions[j] in Flat(ss)
  {
    FlatAt(ss, s);
    assert ss[s].questions[j] == Flat(ss[..s + 1])[|Flat(ss[..s])| + j];
  }

  /** The flat list holds only question objects of the sections: where
      the one at `i` comes from. */
  lemma {:induction false} FlatIndex(ss: seq<ContentSection>, i: nat) returns (s: nat, j: nat)
    requires i < |Flat(ss)|
    ensures s < |ss| && j < |ss[s].questions| && Flat(ss)[i] == ss[s].questions[j]
  {
    var init := ss[..|ss| - 1];
    assert Flat(ss) == Flat(init) + ss[|ss| - 1].questions;
    if i < |Flat(init)| {
      s, j := FlatIndex(init, i);
    } else {
      s, j := |ss| - 1, i - |Flat(init)|;
    }
  }

  lemma {:induction false} DistinctAppend(a: seq<ContentQuestion>, b: seq<ContentQuestion>)
    requires Distinct(a) && Distinct(b)
    requires forall i, j :: 0 <= i < |a| && 0 <= j < |b| ==> a[i] != b[j]
    ensures Distinct(a + b)
  {
    forall i, j | 0 <= i < j < |a + b| ensures (a + b)[i] != (a + b)[j] {
      if j < |a| {
        assert (a + b)[i] == a[i] && (a + b)[j] == a[j];
      } else if i < |a| {
        assert (a + b)[i] == a[i] && (a + b)[j] == b[j - |a|];
      } else {
        assert (a + b)[i] == b[i - |a|] && (a + b)[j] == b[j - |a|];
      }
    }
  }

  /** With every question object listed once, the numbering is 1, 2, ... in
      order. */
  lemma {:induction false} NumberedDistinct(all: seq<ContentQuestion>)
    requires Distinct(all) && NumberedUpTo(all, |all|)
    ensures forall k :: 0 <= k < |all| ==> all[k].number == Some(k + 1)
  {
  }

  /** The first section with the given id. */
  function SectionWithId(ss: seq<ContentSection>, id: Value): (r: Option<ContentSection>)
    ensures r.Some? ==> exists k :: 0 <= k < |ss| && ss[k] == r.value && ss[k].slug == id
                                    && forall j :: 0 <= j < k ==> ss[j].slug != id
    ensures r.None? <==> forall k :: 0 <= k < |ss| ==> ss[k].slug != id
  {
    if ss == [] then None
    else if ss[0].slug == id then Some(ss[0])
    else
      var r := SectionWithId(ss[1..], id);
      assert forall k :: 1 <= k < |ss| ==> ss[k] == ss[1..][k - 1];
      r
  }

  /** The first question, section after section, that `get_question` finds
      for the field. */
  function QuestionInSections(ss: seq<ContentSection>, field: string): (r: Option<Question>)
    reads ss
    ensures r.Some? ==> exists k :: 0 <= k < |ss| && ss[k].GetQuestion(field) == r
                                    && forall j :: 0 <= j < k ==> ss[j].GetQuestion(field).None?
    ensures r.None? <==> forall k :: 0 <= k < |ss| ==> ss[k].GetQuestion(field).None?
  {
    if ss == [] then None
    else if ss[0].GetQuestion(field).Some? then ss[0].GetQuestion(field)
    else
      var r := QuestionInSections(ss[1..], field);
      assert forall k :: 1 <= k < |ss| ==> ss[k] == ss[1..][k - 1];
      r
  }

  /** The first question object, section after section, with the slug. */
  function QuestionInSectionsBySlug(ss: seq<ContentSection>, wanted: Value): (r: Option<ContentQuestion>)
    reads ss
    ensures r.Some? ==> exists k :: 0 <= k < |ss| && ss[k].GetQuestionBySlug(wanted) == r
                                    && forall j :: 0 <= j < k ==> ss[j].GetQuestionBySlug(wanted).None?
    ensures r.None? <==> forall k :: 0 <= k < |ss| ==> ss[k].GetQuestionBySlug(wanted).None?
  {
    if ss == [] then None
    else if ss[0].GetQuestionBySlug(wanted).Some? then ss[0].GetQuestionBySlug(wanted)
    else
      var r := QuestionInSectionsBySlug(ss[1..], wanted);
      assert forall k :: 1 <= k < |ss| ==> ss[k] == ss[1..][k - 1];
      r
  }

  /** The data of each section from the same form. */
  function SectionParts(ss: seq<ContentSection>, form: FormData, convert: Conversions): (r: seq<Result<map<string, Value>>>)
    reads ss
    ensures |r| == |ss| && forall k :: 0 <= k < |ss| ==> r[k] == SectionData(ss[k].Contents(), Stripped(form), convert)
  {
    if ss == [] then []
    else SectionParts(ss[..|ss| - 1], form, convert) + [SectionData(ss[|ss| - 1].Contents(), Stripped(form), convert)]
  }

  /** Every key of the data of all sections is a field name of one of
      them. */
  lemma {:induction false} AllDataKeys(ss: seq<ContentSection>, form: FormData, convert: Conversions, key: string)
    requires forall k :: 0 <= k < |ss| ==> FieldNames(ss[k].Contents()).Ok?
    requires Merged(SectionParts(ss, form, convert), |ss|).Ok?
    requires key in Merged(SectionParts(ss, form, convert), |ss|).value
    ensures exists k :: 0 <= k < |ss| && key in FieldNames(ss[k].Contents()).value
  {
    var parts := SectionParts(ss, form, convert);
    MergedKey(parts, |ss|, key);
    var k :| 0 <= k < |ss| && parts[k].Ok? && key in parts[k].value;
    SectionDataKeys(ss[k].Contents(), Stripped(form), convert);
  }

  /** The questions to show of each section. */
  function ShownLists(ss: seq<ContentSection>, service: map<string, Value>): (r: seq<Result<seq<ContentQuestion>>>)
    reads ss
    ensures |r| == |ss|
  {
    if ss == [] then []
    else ShownLists(ss[..|ss| - 1], service) + [ShownQuestions(ss[|ss| - 1].questions, service)]
  }

  /** Each list is the questions to show of its own section. */
  lemma {:induction false} ShownListsAt(ss: seq<ContentSection>, service: map<string, Value>)
    ensures forall k :: 0 <= k < |ss| ==> ShownLists(ss, service)[k] == ShownQuestions(ss[k].questions, service)
  {
    if ss != [] {
      ShownListsAt(ss[..|ss| - 1], service);
      assert forall k :: 0 <= k < |ss| - 1 ==> ss[..|ss| - 1][k] == ss[k];
    }
  }

  /** Among the first `n` lists of questions to show, the position of each
      non-empty one and the list; the first failure stops the walk. */
  function Kept(shown: seq<Result<seq<ContentQuestion>>>, n: nat): Result<seq<(nat, seq<ContentQuestion>)>>
    requires n <= |shown|
  {
    if n == 0 then Ok([])
    else
      var before :- Kept(shown, n - 1);
      var last :- shown[n - 1];
      Ok(if last == [] then before else before + [(n - 1, last)])
  }

  /** The sections `filter` keeps: the position of each and the questions
      it keeps, sections with none dropped. */
  function Filtered(ss: seq<ContentSection>, service: map<string, Value>): Result<seq<(nat, seq<ContentQuestion>)>>
    reads ss
  {
    Kept(ShownLists(ss, service), |ss|)
  }

  lemma {:induction false} KeptRaiseSticks(shown: seq<Result<seq<ContentQuestion>>>, n: nat, m: nat)
    requires n <= m <= |shown| && Kept(shown, n).Raise?
    ensures Kept(shown, m) == Kept(shown, n)
    decreases m - n
  {
    if n < m {
      KeptRaiseSticks(shown, n, m - 1);
    }
  }

  /** The walk succeeds exactly when every list could be computed. */
  lemma {:induction false} KeptOk(shown: seq<Result<seq<ContentQuestion>>>, n: nat)
    requires n <= |shown|
    ensures Kept(shown, n).Ok? <==> forall i :: 0 <= i < n ==> shown[i].Ok?
  {
    if n > 0 {
      KeptOk(shown, n - 1);
    }
  }

  /** What the walk keeps: non-empty lists, in their order, each with its
      position. */
  lemma {:induction false} KeptParts(shown: seq<Result<seq<ContentQuestion>>>, n: nat)
    requires n <= |shown| && Kept(shown, n).Ok?
    ensures forall k :: 0 <= k < |Kept(shown, n).value| ==>
              var kept := Kept(shown, n).value[k];
              kept.0 < n && kept.1 != [] && shown[kept.0] == Ok(kept.1)
    ensures forall k, j :: 0 <= k < j < |Kept(shown, n).value| ==> Kept(shown, n).value[k].0 < Kept(shown, n).value[j].0
  {
    if n > 0 {
      KeptParts(shown, n - 1);
    }
  }

  /** Every non-empty list is kept. */
  lemma {:induction false} KeptComplete(shown: seq<Result<seq<ContentQuestion>>>, n: nat, i: nat)
    requires i < n <= |shown| && Kept(shown, n).Ok? && shown[i] != Ok([])
    ensures exists k :: 0 <= k < |Kept(shown, n).value| && Kept(shown, n).value[k].0 == i
  {
    var before := Kept(shown, n - 1).value;
    var kept := Kept(shown, n).value;
    assert kept[..|before|] == before;
    if i < n - 1 {
      KeptComplete(shown, n - 1, i);
      var k :| 0 <= k < |before| && before[k].0 == i;
      assert kept[k] == before[k];
    } else {
      assert kept[|kept| - 1].0 == i;
    }
  }

  /** `filter` succeeds when the dependencies of every question can be
      evaluated; then it keeps, in order, exactly the sections with a
      question to show, each with its questions to show. */
  lemma {:induction false} FilteredMeaning(ss: seq<ContentSection>, service: map<string, Value>)
    ensures Filtered(ss, service).Ok? <==> forall i :: 0 <= i < |ss| ==> ShownQuestions(ss[i].questions, service).Ok?
    ensures Filtered(ss, service).Ok? ==>
              (forall k :: 0 <= k < |Filtered(ss, service).value| ==>
                 var kept := Filtered(ss, service).value[k];
                 kept.0 < |ss| && kept.1 != [] && ShownQuestions(ss[kept.0].questions, service) == Ok(kept.1))
              && (forall k, j :: 0 <= k < j < |Filtered(ss, service).value| ==>
                    Filtered(ss, service).value[k].0 < Filtered(ss, service).value[j].0)
              && (forall i :: 0 <= i < |ss| && ShownQuestions(ss[i].questions, service) != Ok([]) ==>
                    exists k :: 0 <= k < |Filtered(ss, service).value| && Filtered(ss, service).value[k].0 == i)
  {
    var shown := ShownLists(ss, service);
    ShownListsAt(ss, service);
    KeptOk(shown, |ss|);
    if Filtered(ss, service).Ok? {
      KeptParts(shown, |ss|);
      forall i | 0 <= i < |ss| && ShownQuestions(ss[i].questions, service) != Ok([])
        ensures exists k :: 0 <= k < |Filtered(ss, service).value| && Filtered(ss, service).value[k].0 == i
      {
        KeptComplete(shown, |ss|, i);
      }
    }
  }

  /** The questions `filter` keeps are question objects of the sections. */
  lemma {:induction false} FilteredFromSections(ss: seq<ContentSection>, service: map<string, Value>, k: nat, j: nat)
    requires Filtered(ss, service).Ok? && k < |Filtered(ss, service).value| && j < |Filtered(ss, service).value[k].1|
    ensures Filtered(ss, service).value[k].1[j] in Flat(ss)
  {
    var shown := ShownLists(ss, service);
    ShownListsAt(ss, service);
    KeptParts(shown, |ss|);
    var (s, questions) := Filtered(ss, service).value[k];
    var qs := ss[s].questions;
    SelectedMeaning(qs, Decisions(qs, service));
    var at :| 0 <= at < |qs| && qs[at] == questions[j] && Decisions(qs, service)[at] == Ok(true);
    FlatHas(ss, s, at);
  }

  /** Sections holding the questions `filter` keeps hold only question
      objects of the given sections. */
  lemma {:induction false} KeptFromSections(ss: seq<ContentSection>, service: map<string, Value>, kept: seq<ContentSection>)
    requires Filtered(ss, service).Ok? && KeptBy(ss, kept, Filtered(ss, service).value)
    ensures forall i :: 0 <= i < |Flat(kept)| ==> Flat(kept)[i] in Flat(ss)
  {
    forall i | 0 <= i < |Flat(kept)|
      ensures Flat(kept)[i] in Flat(ss)
    {
      var s, j := FlatIndex(kept, i);
      FilteredFromSections(ss, service, s, j);
    }
  }

  /** `result` holds, in order, a section like each planned one of `ss`
      with the planned questions. */
  predicate KeptBy(ss: seq<ContentSection>, result: seq<ContentSection>, plan: seq<(nat, seq<ContentQuestion>)>)
    reads result
  {
    |result| == |plan|
    && forall k :: 0 <= k < |plan| ==>
         plan[k].0 < |ss| && result[k].SameAttributes(ss[plan[k].0]) && result[k].questions == plan[k].1
  }

  lemma {:induction false} KeptByAppend(ss: seq<ContentSection>, result: seq<ContentSection>, plan: seq<(nat, seq<ContentQuestion>)>,
                     c: ContentSection, i: nat)
    requires KeptBy(ss, result, plan) && i < |ss| && c.SameAttributes(ss[i])
    ensures KeptBy(ss, result + [c], plan + [(i, c.questions)])
  {
    assert forall k :: 0 <= k < |plan| ==> (result + [c])[k] == result[k] && (plan + [(i, c.questions)])[k] == plan[k];
  }

  /** Copies of sections like the planned ones are like the planned ones. */
  lemma {:induction false} CopiesKeptBy(ss: seq<ContentSection>, kept: seq<ContentSection>, copies: seq<ContentSection>,
                     plan: seq<(nat, seq<ContentQuestion>)>)
    requires KeptBy(ss, kept, plan) && |copies| == |kept|
    requires forall k :: 0 <= k < |kept| ==> copies[k].SameAttributes(kept[k]) && copies[k].questions == kept[k].questions
    ensures KeptBy(ss, copies, plan)
  {
  }

  /** `s` is the summary of `section` for the service data: the same
      attributes and contents, every question object a summary. */
  predicate SummaryOf(s: ContentSection, section: ContentSection, service: map<string, Value>)
    reads s, section
  {
    s.SameAttributes(section) && s.Contents() == section.Contents()
    && forall j :: 0 <= j < |s.questions| ==> s.questions[j].service == Some(service)
  }

  /** `result` holds, in order, a section like each planned one of `ss`
      whose questions have the contents of the planned ones. */
  predicate CopiedBy(ss: seq<ContentSection>, result: seq<ContentSection>, plan: seq<(nat, seq<ContentQuestion>)>)
    reads result
  {
    |result| == |plan|
    && forall k :: 0 <= k < |plan| ==>
         plan[k].0 < |ss| && result[k].SameAttributes(ss[plan[k].0]) && result[k].Contents() == ContentsOf(plan[k].1)
  }

  class ContentManifest {
    const sections: seq<ContentSection>

    /** `ContentManifest(sections)` for section objects: a copy of each
        section, then every question object numbered 1, 2, ... in order
        across the sections. The question objects are shared with the given
        sections; one that is listed twice keeps its later number. */
    constructor(given: seq<ContentSection>)
      modifies Flat(given)
      ensures |sections| == |given|
      ensures forall k :: 0 <= k < |given| ==>
                fresh(sections[k]) && sections[k].SameAttributes(given[k]) && sections[k].questions == given[k].questions
      ensures Flat(sections) == old(Flat(given))
      ensures NumberedUpTo(Flat(sections), |Flat(sections)|)
    {
      ghost var all := Flat(given);
      var copies: seq<ContentSection> := [];
      for i := 0 to |given|
        invariant |copies| == i
        invariant forall k :: 0 <= k < i ==>
                    fresh(copies[k]) && copies[k].SameAttributes(given[k]) && copies[k].questions == given[k].questions
      {
        var c := given[i].Copy();
        copies := copies + [c];
      }
      FlatSame(copies, given);
      sections := copies;
      new;
      Number(sections);
    }

    /** The numbering loop of the constructor: every question object of the
        sections, in order, gets the next number. */
    static method Number(ss: seq<ContentSection>)
      modifies Flat(ss)
      ensures Flat(ss) == old(Flat(ss))
      ensures NumberedUpTo(Flat(ss), |Flat(ss)|)
    {
      ghost var all := Flat(ss);
      var index := 0;
      for s := 0 to |ss|
        invariant Flat(ss) == all
        invariant index == |Flat(ss[..s])| <= |all|
        invariant NumberedUpTo(all, index)
      {
        FlatSlice(ss, s);
        index := NumberSection(ss, all, s, index);
      }
      assert ss[..|ss|] == ss;
    }

    /** One pass of the outer numbering loop: the objects of section `s`. */
    static method NumberSection(ss: seq<ContentSection>, ghost all: seq<ContentQuestion>, s: nat, start: nat) returns (next: nat)
      requires s < |ss| && all == Flat(ss) && start == |Flat(ss[..s])| <= |all| && NumberedUpTo(all, start)
      modifies ss[s].questions
      ensures next == |Flat(ss[..s + 1])| <= |all| && NumberedUpTo(all, next)
    {
      FlatSlice(ss, s);
      FlatAt(ss, s);
      next := NumberRun(ss[s].questions, all, start);
    }

    /** The inner loop of the numbering: the objects `qs`, found in `all`
        at `start`, get the numbers after `start`. */
    static method NumberRun(qs: seq<ContentQuestion>, ghost all: seq<ContentQuestion>, start: nat) returns (next: nat)
      requires start + |qs| <= |all| && all[start..start + |qs|] == qs && NumberedUpTo(all, start)
      modifies qs
      ensures next == start + |qs| && NumberedUpTo(all, next)
    {
      next := start;
      for j := 0 to |qs|
        invariant next == start + j
        invariant NumberedUpTo(all, next)
      {
        assert all[next] == qs[j];
        label Before:
        next := next + 1;
        qs[j].number := Some(next);
        forall k | 0 <= k < next && LastOccurrence(all, k, next)
          ensures all[k].number == Some(k + 1)
        {
          if k < next - 1 {
            assert all[next - 1] != all[k];
            assert LastOccurrence(all, k, next - 1);
            assert old@Before(all[k].number) == Some(k + 1);
          }
        }
      }
    }

    /** `ContentManifest(sections)` for section content: each section
        created from its content, then as above. */
    static method Load(sources: seq<SectionSource>) returns (r: Result<ContentManifest>)
      ensures r.Ok? <==> forall k :: 0 <= k < |sources| ==>
                "slug" in sources[k].data && "name" in sources[k].data && sources[k].questions.Some?
      ensures r.Ok? ==> fresh(r.value) && |r.value.sections| == |sources|
                        && (forall k :: 0 <= k < |sources| ==>
                              r.value.sections[k].slug == sources[k].data["slug"]
                              && r.value.sections[k].Contents() == sources[k].questions.value)
                        && Distinct(Flat(r.value.sections))
                        && forall k :: 0 <= k < |Flat(r.value.sections)| ==> Flat(r.value.sections)[k].number == Some(k + 1)
    {
      var all := CreateAll(sources);
      if all.Raise? {
        return Raise(all.error);
      }
      var created := all.value;
      forall i | 0 <= i < |Flat(created)|
        ensures fresh(Flat(created)[i])
      {
        var s, j := FlatIndex(created, i);
      }
      var m := new ContentManifest(created);
      NumberedDistinct(Flat(m.sections));
      return Ok(m);
    }

    /** The sections `ContentSection.create` makes of the sources, in order;
        the first failing source decides the error. */
    static method CreateAll(sources: seq<SectionSource>) returns (r: Result<seq<ContentSection>>)
      ensures r.Ok? <==> forall k :: 0 <= k < |sources| ==>
                "slug" in sources[k].data && "name" in sources[k].data && sources[k].questions.Some?
      ensures r.Ok? ==> |r.value| == |sources|
                        && (forall k :: 0 <= k < |sources| ==>
                              fresh(r.value[k]) && r.value[k].slug == sources[k].data["slug"]
                              && r.value[k].Contents() == sources[k].questions.value
                              && forall j :: 0 <= j < |r.value[k].questions| ==> fresh(r.value[k].questions[j]))
                        && Distinct(Flat(r.value))
    {
      var created: seq<ContentSection> := [];
      for i := 0 to |sources|
        invariant |created| == i
        invariant forall k :: 0 <= k < i ==>
                    "slug" in sources[k].data && "name" in sources[k].data && sources[k].questions.Some?
        invariant forall k :: 0 <= k < i ==>
                    fresh(created[k]) && created[k].slug == sources[k].data["slug"]
                    && created[k].Contents() == sources[k].questions.value
                    && forall j :: 0 <= j < |created[k].questions| ==> fresh(created[k].questions[j])
        invariant Distinct(Flat(created))
        invariant forall k :: 0 <= k < |Flat(created)| ==> allocated(Flat(created)[k])
      {
        var next := CreateNext(created, sources[i]);
        if next.Raise? {
          return Raise(next.error);
        }
        created := next.value;
      }
      return Ok(created);
    }

    /** One step of `CreateAll`: the section made of `source`, appended;
        its question objects are new, so the flat list keeps no repeats. */
    static method CreateNext(created: seq<ContentSection>, source: SectionSource) returns (r: Result<seq<ContentSection>>)
      requires Distinct(Flat(created))
      requires forall k :: 0 <= k < |Flat(created)| ==> allocated(Flat(created)[k])
      ensures r.Ok? <==> "slug" in source.data && "name" in source.data && source.questions.Some?
      ensures r.Ok? ==> |r.value| == |created| + 1 && r.value[..|created|] == created
                        && fresh(r.value[|created|]) && r.value[|created|].slug == source.data["slug"]
                        && r.value[|created|].Contents() == source.questions.value
                        && (forall j :: 0 <= j < |r.value[|created|].questions| ==> fresh(r.value[|created|].questions[j]))
                        && Distinct(Flat(r.value))
                        && forall k :: 0 <= k < |Flat(r.value)| ==> allocated(Flat(r.value)[k])
    {
      var before := Flat(created);
      var c := ContentSection.Create(source);
      if c.Raise? {
        return Raise(c.error);
      }
      assert forall k, j :: 0 <= k < |before| && 0 <= j < |c.value.questions| ==> before[k] != c.value.questions[j];
      FlatAppend(created, c.value);
      r := Ok(created + [c.value]);
      assert r.value[..|created|] == created;
    }

    /** `manifest.summary(service_data)`: a new manifest of the summaries
        of the sections, whose summary objects are numbered 1, 2, ... afresh
        in order. */
    method Summary(service: map<string, Value>) returns (r: ContentManifest)
      ensures fresh(r) && |r.sections| == |sections|
      ensures forall k :: 0 <= k < |sections| ==>
                r.sections[k].SameAttributes(sections[k]) && r.sections[k].Contents() == sections[k].Contents()
                && forall j :: 0 <= j < |r.sections[k].questions| ==> r.sections[k].questions[j].service == Some(service)
      ensures Distinct(Flat(r.sections))
      ensures forall i :: 0 <= i < |Flat(r.sections)| ==> Flat(r.sections)[i].number == Some(i + 1)
    {
      var summaries := SummarySections(sections, service);
      forall i | 0 <= i < |Flat(summaries)|
        ensures fresh(Flat(summaries)[i])
      {
        var s, j := FlatIndex(summaries, i);
      }
      r := new ContentManifest(summaries);
      NumberedDistinct(Flat(r.sections));
    }

    /** `[section.summary(service_data) for section in self.sections]`. */
    static method SummarySections(ss: seq<ContentSection>, service: map<string, Value>) returns (summaries: seq<ContentSection>)
      ensures |summaries| == |ss|
      ensures forall k :: 0 <= k < |ss| ==> fresh(summaries[k]) && SummaryOf(summaries[k], ss[k], service)
      ensures forall k, j :: 0 <= k < |ss| && 0 <= j < |summaries[k].questions| ==> fresh(summaries[k].questions[j])
      ensures Distinct(Flat(summaries))
    {
      summaries := [];
      for i := 0 to |ss|
        invariant |summaries| == i
        invariant forall k :: 0 <= k < i ==> fresh(summaries[k]) && SummaryOf(summaries[k], ss[k], service)
        invariant forall k, j :: 0 <= k < i && 0 <= j < |summaries[k].questions| ==> fresh(summaries[k].questions[j])
        invariant Distinct(Flat(summaries))
        invariant forall k :: 0 <= k < |Flat(summaries)| ==> allocated(Flat(summaries)[k])
      {
        summaries := SummaryNext(summaries, ss[i], service);
      }
    }

    /** One step of `SummarySections`: the summary of `section`, appended;
        its question objects are new, so the flat list keeps no repeats. */
    static method SummaryNext(summaries: seq<ContentSection>, section: ContentSection, service: map<string, Value>)
      returns (r: seq<ContentSection>)
      requires Distinct(Flat(summaries))
      requires forall k :: 0 <= k < |Flat(summaries)| ==> allocated(Flat(summaries)[k])
      ensures |r| == |summaries| + 1 && r[..|summaries|] == summaries
      ensures fresh(r[|summaries|]) && SummaryOf(r[|summaries|], section, service)
      ensures forall j :: 0 <= j < |r[|summaries|].questions| ==> fresh(r[|summaries|].questions[j])
      ensures Distinct(Flat(r))
      ensures forall k :: 0 <= k < |Flat(r)| ==> allocated(Flat(r)[k])
    {
      var before := Flat(summaries);
      var s := section.Summary(service);
      assert forall k, j :: 0 <= k < |before| && 0 <= j < |s.questions| ==> before[k] != s.questions[j];
      FlatAppend(summaries, s);
      r := summaries + [s];
      assert r[..|summaries|] == summaries;
    }

    /** `manifest.get_section(section_id)`. */
    function GetSection(id: Value): Option<ContentSection> {
      SectionWithId(sections, id)
    }

    /** `manifest.get_all_data(form_data)`: the data of every section
        merged, later sections overriding. */
    method GetAllData(form: FormData, convert: Conversions) returns (r: Result<map<string, Value>>)
      ensures r == Merged(SectionParts(sections, form, convert), |sections|)
    {
      var parts := DataOfSections(form, convert);
      r := MergeAll(parts);
    }

    /** `section.get_data(form_data)` of every section, in order. */
    method DataOfSections(form: FormData, convert: Conversions) returns (parts: seq<Result<map<string, Value>>>)
      ensures parts == SectionParts(sections, form, convert)
    {
      ghost var all := SectionParts(sections, form, convert);
      parts := [];
      for i := 0 to |sections|
        invariant parts == all[..i]
      {
        var d := sections[i].GetData(form, convert);
        assert d == all[i];
        assert all[..i + 1] == all[..i] + [all[i]];
        parts := parts + [d];
      }
      assert all[..|sections|] == all;
    }

    /** `manifest.get_next_section_id(section_id, only_editable)`. */
    method GetNextSectionId(sectionId: Value, onlyEditable: bool) returns (r: Option<Value>)
      ensures r == NextSectionId(Slugs(sections), Editables(sections), sectionId, onlyEditable)
    {
      ghost var slugs := Slugs(sections);
      ghost var editable := Editables(sections);
      var previousIsCurrent := sectionId == Null;
      for i := 0 to |sections|
        invariant NextFrom(slugs, editable, i, previousIsCurrent, sectionId, onlyEditable)
                  == NextSectionId(slugs, editable, sectionId, onlyEditable)
      {
        var section := sections[i];
        if onlyEditable {
          if previousIsCurrent && Truthy(section.editable) {
            return Some(section.slug);
          }
        } else {
          if previousIsCurrent {
            return Some(section.slug);
          }
        }
        if section.slug == sectionId {
          previousIsCurrent := true;
        }
      }
      return None;
    }

    /** `manifest.get_next_editable_section_id(section_id)`. */
    method GetNextEditableSectionId(sectionId: Value) returns (r: Option<Value>)
      ensures r == NextSectionId(Slugs(sections), Editables(sections), sectionId, true)
    {
      r := GetNextSectionId(sectionId, true);
    }

    /** `manifest.filter(service_data)`: a new manifest of copies of the
        sections with a question to show, each holding only those questions,
        numbered 1, 2, ... afresh.  The new manifest numbers the question
        objects it shares with this one, so the questions this manifest
        keeps are renumbered too; the others keep their numbers. */
    method Filter(service: map<string, Value>) returns (r: Result<ContentManifest>)
      modifies Flat(sections)
      ensures r.Ok? <==> Filtered(sections, service).Ok?
      ensures r.Ok? ==> fresh(r.value) && KeptBy(sections, r.value.sections, Filtered(sections, service).value)
      ensures r.Ok? ==> NumberedUpTo(Flat(r.value.sections), |Flat(r.value.sections)|)
      ensures forall k, j :: 0 <= k < |sections| && 0 <= j < |sections[k].questions| ==>
                (r.Raise? || sections[k].questions[j] !in Flat(r.value.sections)) ==>
                  sections[k].questions[j].number == old(sections[k].questions[j].number)
    {
      var kept := KeptSections(service);
      if kept.Raise? {
        return Raise(kept.error);
      }
      var m := Renumbered(sections, service, kept.value);
      return Ok(m);
    }

    /** The manifest `filter` makes of the kept sections: it numbers their
        question objects, which are objects of `ss`, and no other. */
    static method Renumbered(ss: seq<ContentSection>, service: map<string, Value>, kept: seq<ContentSection>)
      returns (m: ContentManifest)
      requires Filtered(ss, service).Ok? && KeptBy(ss, kept, Filtered(ss, service).value)
      modifies Flat(ss)
      ensures fresh(m) && KeptBy(ss, m.sections, Filtered(ss, service).value)
      ensures NumberedUpTo(Flat(m.sections), |Flat(m.sections)|)
      ensures Flat(m.sections) == Flat(kept)
      ensures forall k, j :: 0 <= k < |ss| && 0 <= j < |ss[k].questions| && ss[k].questions[j] !in Flat(kept) ==>
                ss[k].questions[j].number == old(ss[k].questions[j].number)
    {
      KeptFromSections(ss, service, kept);
      m := new ContentManifest(kept);
      CopiesKeptBy(ss, kept, m.sections, Filtered(ss, service).value);
    }

    /** `filter` as its documentation describes it: a new manifest of the
        sections with a question to show, holding new question objects of
        the questions to show, numbered 1, 2, ... afresh; this manifest is
        not changed. */
    method FilterCopying(service: map<string, Value>) returns (r: Result<ContentManifest>)
      ensures r.Ok? <==> Filtered(sections, service).Ok?
      ensures r.Ok? ==> fresh(r.value) && CopiedBy(sections, r.value.sections, Filtered(sections, service).value)
      ensures r.Ok? ==> Distinct(Flat(r.value.sections))
                        && forall i :: 0 <= i < |Flat(r.value.sections)| ==> Flat(r.value.sections)[i].number == Some(i + 1)
      ensures forall k, j :: 0 <= k < |sections| && 0 <= j < |sections[k].questions| ==>
                sections[k].questions[j].number == old(sections[k].questions[j].number)
    {
      var kept := KeptSections(service);
      if kept.Raise? {
        return Raise(kept.error);
      }
      var m := NumberedCopies(sections, kept.value, Filtered(sections, service).value);
      return Ok(m);
    }

    /** A new manifest of copies of `kept` holding new question objects. */
    static method NumberedCopies(ghost ss: seq<ContentSection>, kept: seq<ContentSection>,
                                 ghost plan: seq<(nat, seq<ContentQuestion>)>) returns (m: ContentManifest)
      requires KeptBy(ss, kept, plan)
      ensures fresh(m) && CopiedBy(ss, m.sections, plan)
      ensures Distinct(Flat(m.sections))
      ensures forall i :: 0 <= i < |Flat(m.sections)| ==> Flat(m.sections)[i].number == Some(i + 1)
    {
      var copies := FreshSections(kept);
      forall i | 0 <= i < |Flat(copies)|
        ensures fresh(Flat(copies)[i])
      {
        var s, j := FlatIndex(copies, i);
      }
      m := new ContentManifest(copies);
      NumberedDistinct(Flat(m.sections));
    }

    /** A copy of each section, holding new question objects. */
    static method FreshSections(ss: seq<ContentSection>) returns (copies: seq<ContentSection>)
      ensures |copies| == |ss|
      ensures forall k :: 0 <= k < |ss| ==>
                fresh(copies[k]) && copies[k].SameAttributes(ss[k]) && copies[k].Contents() == ss[k].Contents()
      ensures forall k, j :: 0 <= k < |ss| && 0 <= j < |copies[k].questions| ==> fresh(copies[k].questions[j])
      ensures Distinct(Flat(copies))
    {
      copies := [];
      for i := 0 to |ss|
        invariant |copies| == i
        invariant forall k :: 0 <= k < i ==>
                    fresh(copies[k]) && copies[k].SameAttributes(ss[k]) && copies[k].Contents() == ss[k].Contents()
        invariant forall k, j :: 0 <= k < i && 0 <= j < |copies[k].questions| ==> fresh(copies[k].questions[j])
        invariant Distinct(Flat(copies))
        invariant forall k :: 0 <= k < |Flat(copies)| ==> allocated(Flat(copies)[k])
      {
        copies := FreshNext(copies, ss[i]);
      }
    }

    /** One step of `FreshSections`. */
    static method FreshNext(copies: seq<ContentSection>, section: ContentSection) returns (r: seq<ContentSection>)
      requires Distinct(Flat(copies))
      requires forall k :: 0 <= k < |Flat(copies)| ==> allocated(Flat(copies)[k])
      ensures |r| == |copies| + 1 && r[..|copies|] == copies
      ensures fresh(r[|copies|]) && r[|copies|].SameAttributes(section) && r[|copies|].Contents() == section.Contents()
      ensures forall j :: 0 <= j < |r[|copies|].questions| ==> fresh(r[|copies|].questions[j])
      ensures Distinct(Flat(r))
      ensures forall k :: 0 <= k < |Flat(r)| ==> allocated(Flat(r)[k])
    {
      var before := Flat(copies);
      var s := section.FreshCopy();
      assert forall k, j :: 0 <= k < |before| && 0 <= j < |s.questions| ==> before[k] != s.questions[j];
      FlatAppend(copies, s);
      r := copies + [s];
      assert r[..|copies|] == copies;
    }

    /** The list `filter` hands to the new manifest: the filtered copy of
        each section, the sections without a question to show left out. */
    method KeptSections(service: map<string, Value>) returns (r: Result<seq<ContentSection>>)
      ensures r.Ok? <==> Filtered(sections, service).Ok?
      ensures r.Ok? ==> KeptBy(sections, r.value, Filtered(sections, service).value)
                        && forall k :: 0 <= k < |r.value| ==> fresh(r.value[k])
    {
      var kept: seq<ContentSection> := [];
      ghost var shown := ShownLists(sections, service);
      ghost var plan: seq<(nat, seq<ContentQuestion>)> := [];
      for i := 0 to |sections|
        invariant Kept(shown, i) == Ok(plan)
        invariant KeptBy(sections, kept, plan)
        invariant forall k :: 0 <= k < |kept| ==> fresh(kept[k])
      {
        var next;
        next, plan := KeepSection(sections, service, shown, i, kept, plan);
        if next.Raise? {
          KeptRaiseSticks(shown, i + 1, |sections|);
          return next;
        }
        kept := next.value;
      }
      return Ok(kept);
    }

    /** One pass of the filtering loop: section `i` filtered, and its copy
        appended when it has a question to show. */
    static method KeepSection(ss: seq<ContentSection>, service: map<string, Value>, ghost shown: seq<Result<seq<ContentQuestion>>>,
                              i: nat, kept: seq<ContentSection>, ghost plan: seq<(nat, seq<ContentQuestion>)>)
      returns (r: Result<seq<ContentSection>>, ghost after: seq<(nat, seq<ContentQuestion>)>)
      requires i < |ss| && shown == ShownLists(ss, service)
      requires Kept(shown, i) == Ok(plan) && KeptBy(ss, kept, plan)
      ensures r.Raise? <==> Kept(shown, i + 1).Raise?
      ensures r.Ok? ==> Kept(shown, i + 1) == Ok(after) && KeptBy(ss, r.value, after)
      ensures r.Ok? ==> |kept| <= |r.value| && (forall k :: 0 <= k < |kept| ==> r.value[k] == kept[k])
                        && forall k :: |kept| <= k < |r.value| ==> fresh(r.value[k])
    {
      ShownListsAt(ss, service);
      assert shown[i] == ShownQuestions(ss[i].questions, service);
      var filtered := SectionFilteredBy(ss[i], service);
      after := plan;
      if filtered.Raise? {
        assert shown[i].Raise?;
        return Raise(filtered.error), after;
      }
      assert shown[i].Ok? && (filtered.value.Some? <==> shown[i].value != []);
      if filtered.value.Some? {
        var c := filtered.value.value;
        assert shown[i] == Ok(c.questions);
        KeptByAppend(ss, kept, plan, c, i);
        after := plan + [(i, c.questions)];
        return Ok(kept + [c]), after;
      }
      return Ok(kept), after;
    }

    /** `manifest._get_section_filtered_by(section, service_data)`: a copy
        of the section holding the questions to show, or `None` when there
        is none. */
    static method SectionFilteredBy(section: ContentSection, service: map<string, Value>) returns (r: Result<Option<ContentSection>>)
      ensures r.Raise? <==> ShownQuestions(section.questions, service).Raise?
      ensures r.Ok? && r.value.None? <==> ShownQuestions(section.questions, service) == Ok([])
      ensures r.Ok? && r.value.Some? ==>
                fresh(r.value.value) && r.value.value.SameAttributes(section)
                && Ok(r.value.value.questions) == ShownQuestions(section.questions, service)
                && r.value.value.questions != []
    {
      var copy := section.Copy();
      var shown := ShownQuestions(copy.questions, service);
      if shown.Raise? {
        return Raise(shown.error);
      }
      if shown.value == [] {
        return Ok(None);
      }
      copy.questions := shown.value;
      return Ok(Some(copy));
    }

    /** `manifest.get_question(field_name)`. */
    function GetQuestion(field: string): Option<Question>
      reads sections
    {
      QuestionInSections(sections, field)
    }

    /** `manifest.get_question_by_slug(question_slug)`. */
    function GetQuestionBySlug(wanted: Value): Option<ContentQuestion>
      reads sections
    {
      QuestionInSectionsBySlug(sections, wanted)
    }
  }

  /** `filter` renumbers the question objects it shares with the manifest
      it filters: of two one-question sections whose first question depends
      on an answer the service lacks, the second question is number 2 of
      the manifest and number 1 once the manifest is filtered. */
  method FilterRenumbersShared() returns (before: Option<nat>, after: Option<nat>)
    ensures before == Some(2) && after == Some(1)
  {
    var m, q2 := PairManifest();
    before := q2.number;
    FilteredPair(m.sections, map[]);
    ghost var plan := Filtered(m.sections, map[]);
    var r := m.Filter(map[]);
    assert Filtered(m.sections, map[]) == plan;
    NumberedOne(r.value.sections);
    after := q2.number;
  }

  /** Filtering the same manifest by copying leaves its numbers alone: the
      second question stays number 2, and its copy in the result is
      number 1. */
  method FilterCopyingKeepsNumbers() returns (before: Option<nat>, after: Option<nat>, copied: Option<nat>)
    ensures before == Some(2) && after == Some(2) && copied == Some(1)
  {
    var m, q2 := PairManifest();
    before := q2.number;
    FilteredPair(m.sections, map[]);
    var r := m.FilterCopying(map[]);
    NumberedOne(r.value.sections);
    after := q2.number;
    copied := r.value.sections[0].questions[0].number;
  }

  /** The manifest of a section holding a question hidden by `lot` and a
      section holding the question `q2`. */
  method PairManifest() returns (m: ContentManifest, q2: ContentQuestion)
    ensures fresh(m) && |m.sections| == 2 && |m.sections[0].questions| == 1 && m.sections[1].questions == [q2]
    ensures m.sections[0].questions[0].content == HiddenByLot && q2.content.data == map[]
    ensures q2.number == Some(2)
    ensures fresh(q2) && fresh(m.sections[0].questions[0]) && Flat(m.sections) == [m.sections[0].questions[0], q2]
  {
    var q1 := new ContentQuestion(HiddenByLot, None, None);
    q2 := new ContentQuestion(Question("b", map[], [], []), None, None);
    var s1 := new ContentSection(Str("first"), Null, Null, Null, [q1], Null, Null);
    var s2 := new ContentSection(Str("second"), Null, Null, Null, [q2], Null, Null);
    FlatPair(s1, s2);
    m := new ContentManifest([s1, s2]);
    NumberedSecond(Flat(m.sections));
  }

  /** Of two objects numbered in order, the second is number 2. */
  lemma {:induction false} NumberedSecond(all: seq<ContentQuestion>)
    requires |all| == 2 && all[0] != all[1] && NumberedUpTo(all, 2)
    ensures all[1].number == Some(2)
  {
    assert LastOccurrence(all, 1, 2);
  }

  /** The one object of one section numbered in order is number 1. */
  lemma {:induction false} NumberedOne(ss: seq<ContentSection>)
    requires |ss| == 1 && |ss[0].questions| == 1 && NumberedUpTo(Flat(ss), |Flat(ss)|)
    ensures ss[0].questions[0].number == Some(1)
  {
    FlatOne(ss);
    assert LastOccurrence(Flat(ss), 0, 1);
  }

  lemma {:induction false} FlatOne(ss: seq<ContentSection>)
    requires |ss| == 1
    ensures Flat(ss) == ss[0].questions
  {
    assert ss[..0] == [];
  }

  lemma {:induction false} FlatPair(a: ContentSection, b: ContentSection)
    ensures Flat([a, b]) == a.questions + b.questions
  {
    FlatOne([a, b][..1]);
  }

  lemma {:induction false} SelectedOne(qs: seq<ContentQuestion>, decisions: seq<Result<bool>>)
    requires |qs| == 1 && |decisions| == 1 && decisions[0].Ok?
    ensures Selected(qs, decisions) == Ok(if decisions[0].value then qs else [])
  {
    assert qs[1..] == [] && decisions[1..] == [];
    assert Selected(qs[1..], decisions[1..]) == Ok([]);
    assert (if decisions[0].value then [qs[0]] + [] else []) == (if decisions[0].value then qs else []);
  }

  /** A question shown only when the service has an answer under `lot`. */
  const HiddenByLot := Question("a", map["depends" := List([Dict(map["on" := Str("lot")])])], [], [])

  /** Of two one-question sections, a first question hidden by an answer
      the service lacks: `filter` keeps only the second section. */
  lemma {:induction false} FilteredPair(ss: seq<ContentSection>, service: map<string, Value>)
    requires |ss| == 2 && |ss[0].questions| == 1 && |ss[1].questions| == 1
    requires ss[0].questions[0].content == HiddenByLot
    requires ss[1].questions[0].content.data == map[] && "lot" !in service
    ensures Filtered(ss, service) == Ok([(1, ss[1].questions)])
  {
    var q1, q2 := ss[0].questions[0], ss[1].questions[0];
    var depends := List([Dict(map["on" := Str("lot")])]);
    assert Get(q1.content, "depends", Null) == depends;
    assert Satisfied(depends.items[0], service) == Ok(false);
    assert AllSatisfied(depends.items, service) == Ok(false);
    assert ShouldBeShown(depends, service) == Ok(false);
    assert Decisions(ss[0].questions, service) == [Ok(false)];
    SelectedOne(ss[0].questions, [Ok(false)]);
    assert Get(q2.content, "depends", Null) == Null;
    assert Decisions(ss[1].questions, service) == [Ok(true)];
    SelectedOne(ss[1].questions, [Ok(true)]);
    var shown := ShownLists(ss, service);
    ShownListsAt(ss, service);
    assert shown[0] == Ok([]) && shown[1] == Ok(ss[1].questions);
    assert Kept(shown, 1) == Ok([]);
    assert Kept(shown, 2) == Ok([] + [(1, ss[1].questions)]);
    assert [] + [(1, ss[1].questions)] == [(1, ss[1].questions)];
  }
}
