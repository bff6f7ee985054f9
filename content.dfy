/** The question content of `dmutils/content_loader.py`: what a
    `ContentQuestion` answers about itself (its form fields, the data it
    takes from a submitted form, its error messages, its dependencies) and
    what a `ContentQuestionSummary` shows for a service.  A question is a
    value here; the objects that carry a question number are in module
    `Manifest`. */
module Content {

  import opened Results
  import opened Text
  import opened Values

  /** A question as loaded from the content files: its id, the rest of its
      content, its `fields` dictionary as (key, form field) pairs in
      iteration order, and its sub-questions (none when it has none). */
  datatype Question = Question(
    id: string,
    data: map<string, Value>,
    fields: seq<(string, string)>,
    questions: seq<Question>)

  /** `question.key`: the content entry, or `AttributeError`. */
  function Attr(q: Question, key: string): (r: Result<Value>)
    ensures r.Ok? <==> key in q.data
    ensures r.Ok? ==> r.value == q.data[key]
    ensures r.Raise? ==> r.error == AttributeError(key)
  {
    if key in q.data then Ok(q.data[key]) else Raise(AttributeError(key))
  }

  /** `question.get(key, default)`. */
  function Get(q: Question, key: string, default: Value): Value {
    if key in q.data then q.data[key] else default
  }

  /** `self.fields.values()`, in iteration order. */
  function FieldValues(q: Question): (r: seq<string>)
    ensures |r| == |q.fields| && forall k :: 0 <= k < |r| ==> r[k] == q.fields[k].1
  {
    seq(|q.fields|, k requires 0 <= k < |q.fields| => q.fields[k].1)
  }

  /** `self.fields.get(key)`. */
  function FieldNamed(fields: seq<(string, string)>, key: string): (r: Option<string>)
    ensures r.Some? ==> exists k :: 0 <= k < |fields| && fields[k] == (key, r.value)
    ensures r.None? <==> forall k :: 0 <= k < |fields| ==> fields[k].0 != key
  {
    if fields == [] then None
    else if fields[0].0 == key then Some(fields[0].1)
    else
      var r := FieldNamed(fields[1..], key);
      assert r.Some? ==> fields[1..][0..][0] == fields[1];
      r
  }

  /** Iterating a content value: a list gives its items, a text its
      characters and a dictionary its keys, here in increasing order.
      Other values are not iterable. */
  function Items(v: Value): (r: Result<seq<Value>>)
    ensures v.List? ==> r == Ok(v.items)
    ensures v.Dict? ==> r.Ok? && |r.value| == |v.entries|
                        && forall k :: 0 <= k < |r.value| ==> r.value[k].Str? && r.value[k].s in v.entries
    ensures r.Ok? <==> v.List? || v.Str? || v.Dict?
  {
    match v
    case List(items) => Ok(items)
    case Str(s) => Ok(seq(|s|, k requires 0 <= k < |s| => Str([s[k]])))
    case Dict(entries) =>
      var keys := Sorted(entries.Keys);
      SortedMembers(entries.Keys);
      Ok(seq(|keys|, k requires 0 <= k < |keys| => Str(keys[k])))
    case _ => Raise(TypeError)
  }

  // ---------------------------------------------------------------------
  // get_question, label

  /** The first of `qs` with id `field`. */
  function FirstWithId(qs: seq<Question>, field: string): (r: Option<Question>)
    ensures r.Some? ==> exists k :: 0 <= k < |qs| && qs[k] == r.value && r.value.id == field
                                    && forall j :: 0 <= j < k ==> qs[j].id != field
    ensures r.None? <==> forall k :: 0 <= k < |qs| ==> qs[k].id != field
  {
    if qs == [] then None
    else if qs[0].id == field then Some(qs[0])
    else
      var r := FirstWithId(qs[1..], field);
      assert r.Some? ==> exists k :: 1 <= k < |qs| && qs[k] == r.value
                                     && forall j :: 1 <= j < k ==> qs[j].id != field by {
        if r.Some? {
          var k :| 0 <= k < |qs[1..]| && qs[1..][k] == r.value
                   && forall j :: 0 <= j < k ==> qs[1..][j].id != field;
          assert forall j :: 1 <= j < k + 1 ==> qs[j] == qs[1..][j - 1];
        }
      }
      r
  }

  /** `question.get_question(field_name)`: the question itself when the name
      is one of its form fields or its id, otherwise the first sub-question
      with that id. */
  function GetQuestion(q: Question, field: string): (r: Option<Question>)
    ensures r.Some? && r.value == q ==> field in FieldValues(q) || q.id == field
    ensures r.Some? && r.value != q ==> r.value in q.questions && r.value.id == field
    ensures r.None? <==> field !in FieldValues(q) && q.id != field
                         && forall k :: 0 <= k < |q.questions| ==> q.questions[k].id != field
  {
    if field in FieldValues(q) || q.id == field then Some(q) else FirstWithId(q.questions, field)
  }

  /** `question.label`: a truthy `name`, otherwise `question`. */
  function Label(q: Question): (r: Result<Value>)
    ensures Truthy(Get(q, "name", Null)) ==> r == Ok(q.data["name"])
    ensures !Truthy(Get(q, "name", Null)) ==> r == Attr(q, "question")
  {
    var name := Get(q, "name", Null);
    if Truthy(name) then Ok(name) else Attr(q, "question")
  }

  // ---------------------------------------------------------------------
  // sorted(): insertion sort by `Text.TextLe`, the order Python uses on text

  predicate SortedTexts(s: seq<string>) {
    forall k :: 0 < k < |s| ==> TextLe(s[k - 1], s[k])
  }

  /** `x` put before the first element it is not above. */
  function InsertText(x: string, s: seq<string>): (r: seq<string>)
    requires SortedTexts(s)
    ensures SortedTexts(r) && multiset(r) == multiset(s) + multiset{x}
    ensures r != [] && (r[0] == x || (s != [] && r[0] == s[0]))
  {
    if s == [] then [x]
    else if TextLe(x, s[0]) then [x] + s
    else
      var tail := InsertText(x, s[1..]);
      TextLeTotal(x, s[0]);
      assert s == [s[0]] + s[1..];
      [s[0]] + tail
  }

  /** `sorted(s)`. */
  function SortTexts(s: seq<string>): (r: seq<string>)
    ensures SortedTexts(r) && multiset(r) == multiset(s)
  {
    if s == [] then []
    else
      assert s == [s[0]] + s[1..];
      InsertText(s[0], SortTexts(s[1..]))
  }

  // ---------------------------------------------------------------------
  // form_fields, _optional_form_fields, required_form_fields

  /** `question.form_fields`: the sorted field values of a question with
      fields, the concatenated form fields of its sub-questions, or its id;
      a question without fields whose type is `pricing` fails the
      assertion. */
  function FormFields(q: Question): Result<seq<string>>
    decreases q, 1
  {
    if q.fields != [] then Ok(SortTexts(FieldValues(q)))
    else if q.questions != [] then SubFormFields(q, 0)
    else
      var t :- Attr(q, "type");
      if t == Str("pricing") then Raise(AssertionError) else Ok([q.id])
  }

  /** The form fields of sub-questions `i..` concatenated. */
  function SubFormFields(q: Question, i: nat): Result<seq<string>>
    requires i <= |q.questions|
    decreases q, 0, |q.questions| - i
  {
    if i == |q.questions| then Ok([])
    else
      var head :- FormFields(q.questions[i]);
      var tail :- SubFormFields(q, i + 1);
      Ok(head + tail)
  }

  /** The three shapes of `form_fields`. */
  lemma {:induction false} FormFieldsCases(q: Question)
    ensures q.fields != [] ==> FormFields(q).Ok? && SortedTexts(FormFields(q).value)
                               && multiset(FormFields(q).value) == multiset(FieldValues(q))
    ensures q.fields == [] && q.questions == [] ==>
              FormFields(q) == (if "type" !in q.data then Raise(AttributeError("type"))
                                else if q.data["type"] == Str("pricing") then Raise(AssertionError)
                                else Ok([q.id]))
  {
  }

  /** A question with sub-questions and no fields has the form fields of
      its sub-questions, one after another, when each has them. */
  lemma {:induction false} SubFormFieldsConcat(q: Question, i: nat, parts: seq<seq<string>>)
    requires i + |parts| == |q.questions|
    requires forall k :: 0 <= k < |parts| ==> FormFields(q.questions[i + k]) == Ok(parts[k])
    ensures SubFormFields(q, i) == Ok(Flatten(parts))
    decreases |parts|
  {
    if parts != [] {
      SubFormFieldsConcat(q, i + 1, parts[1..]);
      SubFormFieldsStep(q, i, parts[0], Flatten(parts[1..]));
    }
  }

  lemma {:induction false} SubFormFieldsStep(q: Question, i: nat, head: seq<string>, tail: seq<string>)
    requires i < |q.questions| && FormFields(q.questions[i]) == Ok(head) && SubFormFields(q, i + 1) == Ok(tail)
    ensures SubFormFields(q, i) == Ok(head + tail)
  {
  }

  function Flatten(parts: seq<seq<string>>): seq<string> {
    if parts == [] then [] else parts[0] + Flatten(parts[1..])
  }

  /** `[self.fields[key] for key in keys]`. */
  function FieldsOfKeys(fields: seq<(string, string)>, keys: seq<Value>): (r: Result<seq<string>>)
    ensures r.Ok? ==> |r.value| == |keys|
                      && forall k :: 0 <= k < |keys| ==> keys[k].Str? && FieldNamed(fields, keys[k].s) == Some(r.value[k])
  {
    if keys == [] then Ok([])
    else
      var head :- FieldOfKey(fields, keys[0]);
      var tail :- FieldsOfKeys(fields, keys[1..]);
      Ok([head] + tail)
  }

  /** `self.fields[key]`: a key that is not there is a `KeyError`, one that
      cannot be a dictionary key a `TypeError`. */
  function FieldOfKey(fields: seq<(string, string)>, key: Value): (r: Result<string>)
    ensures r.Ok? <==> key.Str? && FieldNamed(fields, key.s).Some?
    ensures r.Ok? ==> r.value == FieldNamed(fields, key.s).value
  {
    match key
    case Str(k) => if FieldNamed(fields, k).Some? then Ok(FieldNamed(fields, k).value) else Raise(KeyError(k))
    case List(_) => Raise(TypeError)
    case Dict(_) => Raise(TypeError)
    case _ => Raise(KeyError(""))
  }

  /** `question._optional_form_fields`: all form fields of an optional
      question, the fields named by `optional_fields`, those of its
      sub-questions, or none. */
  function OptionalFormFields(q: Question): Result<seq<string>>
    decreases q, 1
  {
    if Truthy(Get(q, "optional", Null)) then FormFields(q)
    else if Truthy(Get(q, "optional_fields", Null)) then
      var keys :- Items(q.data["optional_fields"]);
      FieldsOfKeys(q.fields, keys)
    else if q.questions != [] then SubOptionalFormFields(q, 0)
    else Ok([])
  }

  function SubOptionalFormFields(q: Question, i: nat): Result<seq<string>>
    requires i <= |q.questions|
    decreases q, 0, |q.questions| - i
  {
    if i == |q.questions| then Ok([])
    else
      var head :- OptionalFormFields(q.questions[i]);
      var tail :- SubOptionalFormFields(q, i + 1);
      Ok(head + tail)
  }

  function Elements(s: seq<string>): (r: set<string>)
    ensures forall x :: x in r <==> x in s
  {
    set x | x in s
  }

  /** `question.required_form_fields`, as the set it is built from: the
      form fields that are not optional. */
  function RequiredFormFields(q: Question): (r: Result<set<string>>)
    ensures r.Ok? <==> FormFields(q).Ok? && OptionalFormFields(q).Ok?
    ensures r.Ok? ==> forall f :: f in r.value <==> f in FormFields(q).value && f !in OptionalFormFields(q).value
  {
    var all :- FormFields(q);
    var optional :- OptionalFormFields(q);
    Ok(Elements(all) - Elements(optional))
  }

  /** An optional question requires none of its fields; a question with
      neither `optional` nor `optional_fields` nor sub-questions requires
      all of them. */
  lemma {:induction false} RequiredOfOptional(q: Question)
    requires FormFields(q).Ok?
    ensures Truthy(Get(q, "optional", Null)) ==> RequiredFormFields(q) == Ok({})
    ensures !Truthy(Get(q, "optional", Null)) && !Truthy(Get(q, "optional_fields", Null)) && q.questions == []
            ==> RequiredFormFields(q) == Ok(Elements(FormFields(q).value))
  {
    var all := FormFields(q).value;
    if Truthy(Get(q, "optional", Null)) {
      assert OptionalFormFields(q) == Ok(all);
      assert Elements(all) - Elements(all) == {};
    } else if !Truthy(Get(q, "optional_fields", Null)) && q.questions == [] {
      assert OptionalFormFields(q) == Ok([]);
      assert Elements(all) - Elements([]) == Elements(all);
    }
  }

  // ---------------------------------------------------------------------
  // get_question_ids

  /** `type in [question.type, None]`. */
  predicate OfType(kind: Option<string>, t: Value) {
    kind.None? || t == Str(kind.value)
  }

  /** `question.get_question_ids(type)`: the ids of its sub-questions of that
      type, or its own id when it is of that type; every type consulted is
      read, so a question without one fails. */
  function GetQuestionIds(q: Question, kind: Option<string>): (r: Result<seq<string>>)
    ensures q.questions != [] ==> r == IdsOfType(q.questions, kind)
    ensures q.questions == [] ==>
              r == (if "type" !in q.data then Raise(AttributeError("type"))
                    else if OfType(kind, q.data["type"]) then Ok([q.id]) else Ok([]))
  {
    if q.questions != [] then IdsOfType(q.questions, kind)
    else
      var t :- Attr(q, "type");
      Ok(if OfType(kind, t) then [q.id] else [])
  }

  /** `[question.id for question in qs if type in [question.type, None]]`. */
  function IdsOfType(qs: seq<Question>, kind: Option<string>): (r: Result<seq<string>>)
    ensures r.Ok? <==> forall k :: 0 <= k < |qs| ==> "type" in qs[k].data
    ensures r.Ok? ==> forall x :: x in r.value <==>
                        exists k :: 0 <= k < |qs| && qs[k].id == x && OfType(kind, qs[k].data["type"])
  {
    if qs == [] then Ok([])
    else
      var t :- Attr(qs[0], "type");
      var tail :- IdsOfType(qs[1..], kind);
      assert forall k :: 1 <= k < |qs| ==> qs[k] == qs[1..][k - 1];
      var r := if OfType(kind, t) then [qs[0].id] + tail else tail;
      assert forall x :: x in r <==> exists k :: 0 <= k < |qs| && qs[k].id == x && OfType(kind, qs[k].data["type"]) by {
        forall x | x in r ensures exists k :: 0 <= k < |qs| && qs[k].id == x && OfType(kind, qs[k].data["type"]) {
          if x != qs[0].id || !OfType(kind, t) {
            var k :| 0 <= k < |qs[1..]| && qs[1..][k].id == x && OfType(kind, qs[1..][k].data["type"]);
            assert qs[k + 1] == qs[1..][k];
          }
        }
      }
      Ok(r)
  }

  // ---------------------------------------------------------------------
  // dependencies (_question_should_be_shown)

  /** `x in container` for content values. */
  function ValueIn(x: Value, container: Value): (r: Result<bool>)
    ensures container.List? ==> r == Ok(x in container.items)
  {
    match container
    case List(items) => Ok(x in items)
    case Str(s) => if x.Str? then Ok(Contains(s, x.s)) else Raise(TypeError)
    case Dict(entries) =>
      if x.Str? then Ok(x.s in entries)
      else if x.List? || x.Dict? then Raise(TypeError)
      else Ok(false)
    case _ => Raise(TypeError)
  }

  /** One dependency `{on: key, being: values}`: the service has an answer
      under `on` and it is among `being`.  Only a text can be a key of the
      service record. */
  function Satisfied(dep: Value, service: map<string, Value>): (r: Result<bool>)
    ensures r == Ok(true) <==>
              dep.Dict? && "on" in dep.entries && dep.entries["on"].Str? && dep.entries["on"].s in service
              && "being" in dep.entries && ValueIn(service[dep.entries["on"].s], dep.entries["being"]) == Ok(true)
  {
    var on :- Getitem(dep, "on");
    match on
    case Str(k) =>
      if k !in service then Ok(false)
      else
        var being :- Getitem(dep, "being");
        ValueIn(service[k], being)
    case List(_) => Raise(TypeError)
    case Dict(_) => Raise(TypeError)
    case _ => Ok(false)
  }

  /** The dependencies in order, stopping at the first one not satisfied. */
  function AllSatisfied(deps: seq<Value>, service: map<string, Value>): Result<bool> {
    if deps == [] then Ok(true)
    else
      var holds :- Satisfied(deps[0], service);
      if !holds then Ok(false) else AllSatisfied(deps[1..], service)
  }

  /** `_question_should_be_shown(question.get("depends"), service_data)`. */
  function ShouldBeShown(depends: Value, service: map<string, Value>): Result<bool> {
    if depends == Null then Ok(true)
    else
      var deps :- Items(depends);
      AllSatisfied(deps, service)
  }

  /** A list of dependencies shows the question exactly when every one of
      them is satisfied; it hides it exactly when one fails after all before
      it hold. */
  lemma {:induction false} AllSatisfiedMeaning(deps: seq<Value>, service: map<string, Value>)
    ensures AllSatisfied(deps, service) == Ok(true) <==>
              forall k :: 0 <= k < |deps| ==> Satisfied(deps[k], service) == Ok(true)
    ensures AllSatisfied(deps, service) == Ok(false) <==>
              exists k :: 0 <= k < |deps| && Satisfied(deps[k], service) == Ok(false)
                          && forall j :: 0 <= j < k ==> Satisfied(deps[j], service) == Ok(true)
  {
    if deps != [] {
      AllSatisfiedMeaning(deps[1..], service);
      assert forall k :: 1 <= k < |deps| ==> deps[k] == deps[1..][k - 1];
      if Satisfied(deps[0], service) == Ok(true) {
        if AllSatisfied(deps, service) == Ok(false) {
          var k :| 0 <= k < |deps[1..]| && Satisfied(deps[1..][k], service) == Ok(false)
                   && forall j :: 0 <= j < k ==> Satisfied(deps[1..][j], service) == Ok(true);
          assert Satisfied(deps[k + 1], service) == Ok(false);
        }
      }
    }
  }

  /** A question without `depends` is always shown; one with a list of
      dependencies is shown exactly when every dependency names a service
      answer that is among its `being` values. */
  lemma {:induction false} ShouldBeShownMeaning(depends: Value, service: map<string, Value>)
    ensures depends == Null ==> ShouldBeShown(depends, service) == Ok(true)
    ensures depends.List? ==>
              (ShouldBeShown(depends, service) == Ok(true) <==>
               forall k :: 0 <= k < |depends.items| ==> Satisfied(depends.items[k], service) == Ok(true))
    ensures depends.Dict? ==>
              ShouldBeShown(depends, service) == if depends.entries == map[] then Ok(true) else Raise(TypeError)
  {
    if depends.List? {
      AllSatisfiedMeaning(depends.items, service);
    } else if depends.Dict? {
      var keys := Items(depends).value;
      if keys != [] {
        assert keys[0].Str?;
      } else {
        assert |depends.entries| == 0;
      }
    }
  }

  // ---------------------------------------------------------------------
  // get_error_message

  const DefaultMessage := "There was a problem with the answer to this question"

  /** A validation applies to `field` for `messageKey`: its `name` is the
      key and its `field`, when it names one, is that field. */
  function Applies(validation: Value, messageKey: Value, field: string): (r: Result<bool>)
    ensures r.Ok? <==> validation.Dict? && "name" in validation.entries
    ensures r == Ok(true) <==>
              validation.Dict? && "name" in validation.entries && validation.entries["name"] == messageKey
              && ("field" in validation.entries ==> validation.entries["field"] == Str(field))
  {
    var name :- Getitem(validation, "name");
    var named := if "field" in validation.entries then validation.entries["field"] else Str(field);
    Ok(name == messageKey && named == Str(field))
  }

  /** The message of the first validation that applies, or the default. */
  function FirstMessage(validations: seq<Value>, messageKey: Value, field: string): Result<Value> {
    if validations == [] then Ok(Str(DefaultMessage))
    else
      var applies :- Applies(validations[0], messageKey, field);
      if applies then Getitem(validations[0], "message")
      else FirstMessage(validations[1..], messageKey, field)
  }

  /** `question.get_error_message(message_key, field_name)`: the message of
      the first validation of the question that holds the field. */
  function ErrorMessage(q: Question, messageKey: Value, fieldName: Option<string>): Result<Value> {
    var field := if fieldName.Some? then fieldName.value else q.id;
    match GetQuestion(q, field)
    case None => Raise(AttributeError("get"))
    case Some(holder) =>
      var validations :- Items(Get(holder, "validations", List([])));
      FirstMessage(validations, messageKey, field)
  }

  /** The first validation that applies gives its message; when none does,
      the default message. */
  lemma {:induction false} FirstMessageMeaning(validations: seq<Value>, messageKey: Value, field: string, i: nat)
    requires i <= |validations|
    requires forall j :: 0 <= j < i ==> Applies(validations[j], messageKey, field) == Ok(false)
    ensures i == |validations| ==> FirstMessage(validations, messageKey, field) == Ok(Str(DefaultMessage))
    ensures i < |validations| && Applies(validations[i], messageKey, field) == Ok(true) ==>
              FirstMessage(validations, messageKey, field) == Getitem(validations[i], "message")
    decreases i
  {
    if i > 0 {
      FirstMessageMeaning(validations[1..], messageKey, field, i - 1);
      assert forall j :: 0 <= j < i - 1 ==> validations[1..][j] == validations[j + 1];
    }
  }

  /** The error message of a question for a key no validation mentions is
      the default message. */
  lemma {:induction false} ErrorMessageDefault(q: Question, messageKey: Value, field: string)
    requires field == q.id && "validations" in q.data && q.data["validations"].List?
    requires forall v :: v in q.data["validations"].items ==>
               v.Dict? && "name" in v.entries && v.entries["name"] != messageKey
    ensures ErrorMessage(q, messageKey, Some(field)) == Ok(Str(DefaultMessage))
  {
    var vs := q.data["validations"].items;
    FirstMessageMeaning(vs, messageKey, field, |vs|);
  }

  /** Iterating a dictionary of validations gives texts, which cannot be
      indexed by `name`: an empty one gives the default message, any
      other raises. */
  lemma {:induction false} ErrorMessageOfDict(q: Question, messageKey: Value)
    requires "validations" in q.data && q.data["validations"].Dict?
    ensures ErrorMessage(q, messageKey, Some(q.id))
            == if q.data["validations"].entries == map[] then Ok(Str(DefaultMessage)) else Raise(TypeError)
  {
    var keys := Items(q.data["validations"]).value;
    if keys != [] {
      assert keys[0].Str?;
    } else {
      assert |q.data["validations"].entries| == 0;
    }
  }

  // ---------------------------------------------------------------------
  // submitted form data

  /** A submitted form: (name, value) pairs in the order posted. */
  type FormData = seq<(string, string)>

  predicate Posted(form: FormData, key: string) {
    exists k :: 0 <= k < |form| && form[k].0 == key
  }

  /** `form_data[key]`: the first value posted under the key. */
  function First(form: FormData, key: string): (r: string)
    requires Posted(form, key)
    ensures exists k :: 0 <= k < |form| && form[k] == (key, r)
  {
    if form[0].0 == key then form[0].1
    else
      assert Posted(form[1..], key) by {
        var k :| 0 <= k < |form| && form[k].0 == key;
        assert form[1..][k - 1] == form[k];
      }
      var r := First(form[1..], key);
      assert exists k :: 1 <= k < |form| && form[k] == (key, r) by {
        var k :| 0 <= k < |form[1..]| && form[1..][k] == (key, r);
        assert form[k + 1] == form[1..][k];
      }
      r
  }

  /** `form_data.get(key)`. */
  function FormGet(form: FormData, key: string): Value {
    if Posted(form, key) then Str(First(form, key)) else Null
  }

  /** `form_data.getlist(key)`: every value posted under the key, in order. */
  function GetList(form: FormData, key: string): (r: seq<string>)
    ensures forall x :: x in r <==> (key, x) in form
  {
    if form == [] then []
    else
      var tail := GetList(form[1..], key);
      assert forall p :: p in form <==> p == form[0] || p in form[1..];
      if form[0].0 == key then [form[0].1] + tail else tail
  }

  /** The conversions a question's type asks for: `convert_to_boolean` and
      `convert_to_number`. */
  datatype Conversions = Conversions(toBoolean: string -> Value, toNumber: string -> Value)

  predicate ListType(t: Value) {
    t == Str("list") || t == Str("checkboxes")
  }

  /** The value of a question that is in the form, by type; nothing for an
      upload. */
  function AnswerValue(q: Question, form: FormData, convert: Conversions): (r: Result<Option<Value>>)
    requires Posted(form, q.id)
  {
    if q.id == "serviceTypes" then Ok(Some(List(Strs(GetList(form, q.id)))))
    else
      var t :- Attr(q, "type");
      if ListType(t) then Ok(Some(List(Strs(GetList(form, q.id)))))
      else if t == Str("boolean") then Ok(Some(convert.toBoolean(First(form, q.id))))
      else if t == Str("percentage") then Ok(Some(convert.toNumber(First(form, q.id))))
      else if t != Str("upload") then Ok(Some(Str(First(form, q.id))))
      else Ok(None)
  }

  function AssuranceKey(id: string): string {
    id + "--assurance"
  }

  /** `question._get_single_question_data(form_data)`. When nothing is
      posted for an assured question, the assurance field's name is built
      with a byte-string template, so an id outside ASCII raises
      `UnicodeEncodeError` there. */
  function SingleQuestionData(q: Question, form: FormData, convert: Conversions): Result<map<string, Value>> {
    var assured := Truthy(Get(q, "assuranceApproach", Null));
    if !Posted(form, q.id) then
      if assured && !IsAscii(q.id) then Raise(UnicodeEncodeError)
      else if assured && Posted(form, AssuranceKey(q.id)) then
        Ok(map[q.id := Dict(map["assurance" := FormGet(form, AssuranceKey(q.id))])])
      else
        var t :- Attr(q, "type");
        if ListType(t) then Ok(map[q.id := List([])]) else Ok(map[])
    else
      var answer :- AnswerValue(q, form, convert);
      match answer
      case None => Ok(map[])
      case Some(v) =>
        Ok(map[q.id := if assured then Dict(map["value" := v, "assurance" := FormGet(form, AssuranceKey(q.id))]) else v])
  }

  /** `question.get_data(form_data)`: the posted fields of a question with
      fields, the merged data of its sub-questions, or its own answer. */
  function QuestionData(q: Question, form: FormData, convert: Conversions): Result<map<string, Value>>
    decreases q, 1
  {
    if q.fields != [] then
      Ok(map k | k in FieldValues(q) && Posted(form, k) :: Str(First(form, k)))
    else if q.questions != [] then SubQuestionData(q, |q.questions|, form, convert)
    else SingleQuestionData(q, form, convert)
  }

  /** The data of the first `n` sub-questions, later ones overriding. */
  function SubQuestionData(q: Question, n: nat, form: FormData, convert: Conversions): Result<map<string, Value>>
    requires n <= |q.questions|
    decreases q, 0, n
  {
    if n == 0 then Ok(map[])
    else
      var before :- SubQuestionData(q, n - 1, form, convert);
      var last :- QuestionData(q.questions[n - 1], form, convert);
      Ok(before + last)
  }

  /** The data of a question is keyed by its form fields only: anything
      posted that the question does not describe is dropped. */
  lemma {:induction false} QuestionDataKeys(q: Question, form: FormData, convert: Conversions)
    requires FormFields(q).Ok? && QuestionData(q, form, convert).Ok?
    ensures forall k :: k in QuestionData(q, form, convert).value ==> k in FormFields(q).value
    decreases q, 1
  {
    if q.fields != [] {
      FormFieldsCases(q);
      var fs := FormFields(q).value;
      forall k | k in QuestionData(q, form, convert).value ensures k in fs {
        assert k in multiset(FieldValues(q));
      }
    } else if q.questions != [] {
      SubQuestionDataKeys(q, |q.questions|, form, convert);
    }
  }

  lemma {:induction false} SubQuestionDataKeys(q: Question, n: nat, form: FormData, convert: Conversions)
    requires q.fields == [] && q.questions != [] && n <= |q.questions|
    requires FormFields(q).Ok? && SubQuestionData(q, n, form, convert).Ok?
    ensures forall k :: k in SubQuestionData(q, n, form, convert).value ==> k in FormFields(q).value
    decreases q, 0, n
  {
    if n > 0 {
      SubQuestionDataKeys(q, n - 1, form, convert);
      var sub := q.questions[n - 1];
      SubFormFieldsPart(q, 0, n - 1);
      QuestionDataKeys(sub, form, convert);
    }
  }

  /** The form fields of each sub-question are among the parent's. */
  lemma {:induction false} SubFormFieldsPart(q: Question, i: nat, k: nat)
    requires i <= k < |q.questions| && SubFormFields(q, i).Ok?
    ensures FormFields(q.questions[k]).Ok?
    ensures forall f :: f in FormFields(q.questions[k]).value ==> f in SubFormFields(q, i).value
    decreases k - i
  {
    if i < k {
      SubFormFieldsPart(q, i + 1, k);
    }
  }

  /** What a question takes from a form, by kind: a list answer not posted
      is the empty list, an upload posted gives nothing, an answer with an
      assurance approach is a `{value, assurance}` record, and an assured
      question whose id is outside ASCII and is not posted raises. */
  lemma {:induction false} SingleQuestionDataCases(q: Question, form: FormData, convert: Conversions)
    requires q.fields == [] && q.questions == [] && "type" in q.data
    ensures !Posted(form, q.id) && ListType(q.data["type"]) && !Truthy(Get(q, "assuranceApproach", Null))
            ==> QuestionData(q, form, convert) == Ok(map[q.id := List([])])
    ensures !Posted(form, q.id) && ListType(q.data["type"]) && IsAscii(q.id)
            && !Posted(form, AssuranceKey(q.id))
            ==> QuestionData(q, form, convert) == Ok(map[q.id := List([])])
    ensures !Posted(form, q.id) && Truthy(Get(q, "assuranceApproach", Null)) && IsAscii(q.id)
            && Posted(form, AssuranceKey(q.id))
            ==> QuestionData(q, form, convert) == Ok(map[q.id := Dict(map["assurance" := FormGet(form, AssuranceKey(q.id))])])
    ensures !Posted(form, q.id) && Truthy(Get(q, "assuranceApproach", Null)) && !IsAscii(q.id)
            ==> QuestionData(q, form, convert) == Raise(UnicodeEncodeError)
    ensures Posted(form, q.id) && q.id != "serviceTypes" && q.data["type"] == Str("upload")
            ==> QuestionData(q, form, convert) == Ok(map[])
    ensures Posted(form, q.id) && q.id != "serviceTypes" && q.data["type"] == Str("text") && Truthy(Get(q, "assuranceApproach", Null))
            ==> QuestionData(q, form, convert)
                == Ok(map[q.id := Dict(map["value" := Str(First(form, q.id)),
                                           "assurance" := FormGet(form, AssuranceKey(q.id))])])
  {
  }

  // ---------------------------------------------------------------------
  // ContentQuestionSummary: value, is_empty, answer_required

  /** `format_price(minimum, maximum, unit, interval)`. */
  type PriceFormat = (Value, Value, Value, Value) -> Value

  /** What a summary shows: the non-empty sub-questions of a question with
      sub-questions, otherwise an answer. */
  datatype Shown = Parts(parts: seq<Question>) | Answer(answer: Value)

  /** `service.get(key, default)` for a key that may be `None`. */
  function ServiceGet(service: map<string, Value>, key: Option<string>, default: Value): Value {
    if key.Some? && key.value in service then service[key.value] else default
  }

  /** `self._default_for_field(key)`. */
  function DefaultForField(q: Question, key: string): (r: Result<Value>)
    ensures "field_defaults" !in q.data ==> r == Ok(Null)
  {
    match Get(q, "field_defaults", Dict(map[]))
    case Dict(entries) => Ok(if key in entries then entries[key] else Null)
    case _ => Raise(AttributeError("get"))
  }

  /** `summary.value`. */
  function SummaryValue(q: Question, service: map<string, Value>, formatPrice: PriceFormat): Result<Shown>
    decreases q, 2
  {
    if q.questions != [] then
      var parts :- ShownParts(q, |q.questions|, service, formatPrice);
      Ok(Parts(parts))
    else
      var t :- Attr(q, "type");
      if t == Str("pricing") then
        var minimum := ServiceGet(service, FieldNamed(q.fields, "minimum_price"), Null);
        var maximum := ServiceGet(service, FieldNamed(q.fields, "maximum_price"), Null);
        var unitDefault :- DefaultForField(q, "price_unit");
        var unit := ServiceGet(service, FieldNamed(q.fields, "price_unit"), unitDefault);
        var intervalDefault :- DefaultForField(q, "price_interval");
        var interval := ServiceGet(service, FieldNamed(q.fields, "price_interval"), intervalDefault);
        Ok(Answer(if Truthy(minimum) && Truthy(unit) then formatPrice(minimum, maximum, unit, interval) else Str("")))
      else Ok(Answer(ServiceGet(service, Some(q.id), Str(""))))
  }

  /** The sub-questions among the first `n` that are not empty, in order. */
  function ShownParts(q: Question, n: nat, service: map<string, Value>, formatPrice: PriceFormat): Result<seq<Question>>
    requires n <= |q.questions|
    decreases q, 1, n
  {
    if n == 0 then Ok([])
    else
      var before :- ShownParts(q, n - 1, service, formatPrice);
      var empty :- IsEmpty(q.questions[n - 1], service, formatPrice);
      Ok(if empty then before else before + [q.questions[n - 1]])
  }

  /** `summary.is_empty`: the value is `''`, `[]` or `None`. */
  function IsEmpty(q: Question, service: map<string, Value>, formatPrice: PriceFormat): Result<bool>
    decreases q, 3
  {
    var shown :- SummaryValue(q, service, formatPrice);
    match shown
    case Parts(parts) => Ok(parts == [])
    case Answer(a) => Ok(a == Str("") || a == List([]) || a == Null)
  }

  /** `summary.answer_required`: never for an optional question, for a
      question with sub-questions when one of them requires an answer, and
      otherwise when it is empty. */
  function AnswerRequired(q: Question, service: map<string, Value>, formatPrice: PriceFormat): Result<bool>
    decreases q, 5
  {
    if Truthy(Get(q, "optional", Null)) then Ok(false)
    else if q.questions != [] then AnyRequired(q, 0, service, formatPrice)
    else IsEmpty(q, service, formatPrice)
  }

  /** `any(question.answer_required for question in questions[i..])`,
      stopping at the first that requires one. */
  function AnyRequired(q: Question, i: nat, service: map<string, Value>, formatPrice: PriceFormat): Result<bool>
    requires i <= |q.questions|
    decreases q, 4, |q.questions| - i
  {
    if i == |q.questions| then Ok(false)
    else
      var required :- AnswerRequired(q.questions[i], service, formatPrice);
      if required then Ok(true) else AnyRequired(q, i + 1, service, formatPrice)
  }

  /** The shown parts are exactly the sub-questions that are not empty, in
      their order. */
  lemma {:induction false} ShownPartsMeaning(q: Question, n: nat, service: map<string, Value>, formatPrice: PriceFormat)
    requires n <= |q.questions| && ShownParts(q, n, service, formatPrice).Ok?
    ensures forall k :: 0 <= k < n ==> IsEmpty(q.questions[k], service, formatPrice).Ok?
    ensures forall p :: p in ShownParts(q, n, service, formatPrice).value <==>
              exists k :: 0 <= k < n && q.questions[k] == p && IsEmpty(p, service, formatPrice) == Ok(false)
    decreases n
  {
    if n > 0 {
      ShownPartsMeaning(q, n - 1, service, formatPrice);
    }
  }

  /** A question with sub-questions is empty exactly when all of them are. */
  lemma {:induction false} ParentEmpty(q: Question, service: map<string, Value>, formatPrice: PriceFormat)
    requires q.questions != [] && IsEmpty(q, service, formatPrice).Ok?
    ensures IsEmpty(q, service, formatPrice) == Ok(true) <==>
              forall k :: 0 <= k < |q.questions| ==> IsEmpty(q.questions[k], service, formatPrice) == Ok(true)
  {
    var n := |q.questions|;
    ShownPartsMeaning(q, n, service, formatPrice);
    var parts := ShownParts(q, n, service, formatPrice).value;
    if parts != [] {
      assert parts[0] in parts;
    }
  }

  /** A question with sub-questions requires an answer exactly when one of
      them does, the ones before it not failing. */
  lemma {:induction false} AnyRequiredMeaning(q: Question, i: nat, service: map<string, Value>, formatPrice: PriceFormat)
    requires i <= |q.questions|
    ensures AnyRequired(q, i, service, formatPrice) == Ok(true) <==>
              exists k :: i <= k < |q.questions| && AnswerRequired(q.questions[k], service, formatPrice) == Ok(true)
                          && forall j :: i <= j < k ==> AnswerRequired(q.questions[j], service, formatPrice) == Ok(false)
    ensures AnyRequired(q, i, service, formatPrice) == Ok(false) <==>
              forall k :: i <= k < |q.questions| ==> AnswerRequired(q.questions[k], service, formatPrice) == Ok(false)
    decreases |q.questions| - i
  {
    if i < |q.questions| {
      AnyRequiredMeaning(q, i + 1, service, formatPrice);
    }
  }

  // ---------------------------------------------------------------------
  // _message_key, _make_question_id

  /** `_message_key(framework_status, supplier_status)`: the framework
      status, followed by `-` and the supplier status when there is one. */
  function MessageKey(frameworkStatus: Value, supplierStatus: Value, repr: Value -> string): (r: Result<string>)
    ensures r.Ok? ==> PyStr(frameworkStatus, repr).Ok?
    ensures !Truthy(supplierStatus) ==> r == PyStr(frameworkStatus, repr)
  {
    if Truthy(supplierStatus) then
      var supplier :- PyStr(supplierStatus, repr);
      var framework :- PyStr(frameworkStatus, repr);
      Ok(framework + "-" + supplier)
    else PyStr(frameworkStatus, repr)
  }

  /** The key splits back at its last `-` into the two statuses, when the
      supplier status holds no `-`. */
  lemma {:induction false} MessageKeyParts(framework: string, supplier: string, repr: Value -> string)
    requires IsAscii(framework) && IsAscii(supplier) && supplier != [] && '-' !in supplier
    ensures MessageKey(Str(framework), Str(supplier), repr) == Ok(framework + "-" + supplier)
    ensures var key := framework + "-" + supplier;
            LastIndexOf(key, '-') == Some(|framework|)
            && key[..|framework|] == framework && key[|framework| + 1..] == supplier
  {
    var key := framework + "-" + supplier;
    assert key == framework + ['-'] + supplier;
    LastIndexAfter(framework, supplier, '-');
    assert key[..|framework|] == framework && key[|framework| + 1..] == supplier;
  }

  /** The service-type questions that `_make_question_id` folds together. */
  predicate ServiceTypesVariant(name: string) {
    StartsWith(name, "serviceTypesSCS") || StartsWith(name, "serviceTypesSaaS")
    || StartsWith(name, "serviceTypesPaaS") || StartsWith(name, "serviceTypesIaaS")
  }

  /** `_make_question_id(question)`. */
  function MakeQuestionId(name: string): (r: string)
    ensures ServiceTypesVariant(name) ==> r == "serviceTypes"
    ensures !ServiceTypesVariant(name) ==> r == name
  {
    if ServiceTypesVariant(name) then "serviceTypes" else name
  }

  /** Making an id twice changes nothing more: `serviceTypes` itself is not
      a variant. */
  lemma {:induction false} MakeQuestionIdIdempotent(name: string)
    ensures MakeQuestionId(MakeQuestionId(name)) == MakeQuestionId(name)
  {
    if ServiceTypesVariant(name) {
      assert !ServiceTypesVariant("serviceTypes");
    }
  }
}
