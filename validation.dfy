/** The `Validate` class of `dmutils/validation.py`: it holds the posted
    answers and the question content, and its methods update `clean_data`,
    `dirty_data`, `errors` and the read positions of the uploaded files.
    Every method is proved to do what its counterpart in `ValidationRules`
    states about the state. */
module Validation {

  import opened Results
  import opened Text
  import opened Values
  import opened Prices
  import opened ValidationRules
  import Documents

  /** No question id is posted twice. */
  predicate DistinctKeys(posted: seq<(string, Answer)>) {
    forall i, j :: 0 <= i < j < |posted| ==> posted[i].0 != posted[j].0
  }

  /** The uploads among the posted answers. */
  function FilesOf(posted: seq<(string, Answer)>): set<Documents.FileHandle> {
    set k | 0 <= k < |posted| && posted[k].1.FileAnswer? :: posted[k].1.file
  }

  /** The answer posted under `qid`. */
  function Posted(posted: seq<(string, Answer)>, qid: string): (r: Option<Answer>)
    ensures r.Some? ==> exists k :: 0 <= k < |posted| && posted[k] == (qid, r.value)
    ensures r.None? ==> qid !in PostedKeys(posted)
  {
    if posted == [] then None
    else if posted[0].0 == qid then Some(posted[0].1)
    else
      var r := Posted(posted[1..], qid);
      assert r.Some? ==> exists k :: 0 <= k < |posted| && posted[k] == (qid, r.value) by {
        if r.Some? {
          var k :| 0 <= k < |posted[1..]| && posted[1..][k] == (qid, r.value);
          assert posted[k + 1] == (qid, r.value);
        }
      }
      r
  }

  /** With distinct keys, every posted pair is found by its key. */
  lemma {:induction false} PostedAt(posted: seq<(string, Answer)>, i: nat)
    requires DistinctKeys(posted) && i < |posted|
    ensures Posted(posted, posted[i].0) == Some(posted[i].1)
  {
    if i > 0 {
      assert posted[0].0 != posted[i].0;
      assert DistinctKeys(posted[1..]) by {
        forall a, b | 0 <= a < b < |posted[1..]| ensures posted[1..][a].0 != posted[1..][b].0 {
          assert posted[a + 1].0 != posted[b + 1].0;
        }
      }
      PostedAt(posted[1..], i - 1);
    }
  }

  /** The files an answer can move. */
  function Handles(a: Answer): set<object> {
    if a.FileAnswer? then {a.file} else {}
  }

  /** The loop of `items_under_10_words_each`: whether some item has more
      than ten words. */
  method HasLongItem(items: seq<string>) returns (hasLongItem: bool)
    ensures hasLongItem <==> !AllItemsShort(items)
  {
    hasLongItem := false;
    for i := 0 to |items|
      invariant !hasLongItem <==> forall k {:trigger items[k]} :: 0 <= k < i ==> WithinWordLimit(items[k], 10)
    {
      if !WithinWordLimit(items[i], 10) {
        hasLongItem := true;
      }
    }
  }

  class Validate {
    const content: map<string, map<string, Value>>
    const service: Value
    const postedData: seq<(string, Answer)>
    const documentUrl: string
    const uploader: Option<string -> Documents.SaveOutcome>
    const urljoin: (string, string) -> string
    const suffix: string
    const repr: Value -> string
    /** The uploaded files among the posted answers. */
    ghost const files: set<Documents.FileHandle>

    var cleanData: map<string, Data>
    var dirtyData: map<string, Data>
    var errors: Option<map<string, Value>>

    ghost predicate Valid() {
      DistinctKeys(postedData) && files == FilesOf(postedData)
    }

    function Ctx(): Context {
      Context(content, service, documentUrl, uploader, urljoin, suffix, repr)
    }

    /** `a` is one of the posted answers, or at least its file is. */
    ghost predicate Owns(a: Answer) {
      a.FileAnswer? ==> a.file in files
    }

    ghost function Positions(): map<Documents.FileHandle, nat>
      reads files
    {
      map f | f in files :: f.pos
    }

    ghost function State(): St
      reads this, files
    {
      St(cleanData, dirtyData, Positions())
    }

    constructor(content: map<string, map<string, Value>>, service: Value, postedData: seq<(string, Answer)>,
                documentUrl: string, uploader: Option<string -> Documents.SaveOutcome>,
                urljoin: (string, string) -> string, suffix: string, repr: Value -> string)
      requires DistinctKeys(postedData)
      ensures Valid()
      ensures this.content == content && this.service == service && this.postedData == postedData
      ensures this.documentUrl == documentUrl && this.uploader == uploader
      ensures this.urljoin == urljoin && this.suffix == suffix && this.repr == repr
      ensures cleanData == map[] && dirtyData == map[] && errors == None
    {
      this.content := content;
      this.service := service;
      this.postedData := postedData;
      this.documentUrl := documentUrl;
      this.uploader := uploader;
      this.urljoin := urljoin;
      this.suffix := suffix;
      this.repr := repr;
      files := FilesOf(postedData);
      cleanData := map[];
      dirtyData := map[];
      errors := None;
    }

    /** Moving one file leaves the other positions as they were. */
    twostate lemma MovedOne(f: Documents.FileHandle)
      requires f in files
      requires forall g :: g in files && g != f ==> g.pos == old(g.pos)
      ensures Positions() == old(Positions())[f := f.pos]
    {
    }

    /** Changing the answers leaves the file positions as they were. */
    twostate lemma KeptPositions()
      requires forall f :: f in files ==> f.pos == old(f.pos)
      ensures Positions() == old(Positions())
    {
    }

    // -------------------------------------------------------------------
    // the file rules

    method FileHasBeenUploaded(qid: string, question: Answer) returns (r: Result<bool>)
      requires Owns(question)
      modifies Handles(question)
      ensures Step(r, State()) == ValidationRules.FileHasBeenUploaded(question, old(State()))
    {
      match question
      case FileAnswer(f) =>
        var chunk := f.Read(1);
        var notEmpty := |chunk| > 0;
        f.Seek(0);
        MovedOne(f);
        r := Ok(notEmpty);
      case _ =>
        r := Raise(AttributeError("read"));
    }

    method FileIsLessThan5mb(qid: string, question: Answer) returns (r: Result<bool>)
      requires Owns(question)
      modifies Handles(question)
      ensures Step(r, State()) == ValidationRules.FileIsLessThan5mb(question, old(State()))
    {
      match question
      case FileAnswer(f) =>
        var chunk := f.Read(Documents.SizeLimit);
        var belowSizeLimit := |chunk| < Documents.SizeLimit;
        f.Seek(0);
        MovedOne(f);
        r := Ok(belowSizeLimit);
      case _ =>
        r := Raise(AttributeError("read"));
    }

    method FileIsOpenDocumentFormat(qid: string, question: Answer) returns (r: Result<bool>)
      ensures Step(r, State()) == ValidationRules.FileIsOpenDocumentFormat(question, State())
    {
      match question
      case FileAnswer(f) => r := Ok(Documents.FileIsOpenDocumentFormat(f));
      case _ => r := Raise(AttributeError("filename"));
    }

    method FileCanBeSaved(qid: string, question: Answer) returns (r: Result<bool>)
      modifies this`cleanData, this`dirtyData
      ensures Step(r, State()) == ValidationRules.FileCanBeSaved(Ctx(), qid, question, old(State()))
    {
      var path := SavePath(Ctx(), qid, question);
      if path.Raise? {
        return Raise(path.error);
      }
      if uploader.None? {
        return Raise(AttributeError("save"));
      }
      match uploader.value(path.value)
      case S3ResponseError => r := Ok(false);
      case SaveFailed(e) => r := Raise(e);
      case Saved =>
        cleanData := cleanData[qid := DText(urljoin(documentUrl, path.value))];
        r := Ok(true);
    }

    // -------------------------------------------------------------------
    // answer_required

    method AnswerRequired(qid: string, question: Answer) returns (r: Result<bool>)
      requires Owns(question)
      modifies this`cleanData, this`dirtyData, Handles(question)
      ensures Step(r, State()) == ValidationRules.AnswerRequired(Ctx(), qid, question, old(State()))
    {
      var questionContent := QuestionOf(Ctx(), qid);
      if question.ListAnswer? {
        r := Ok(!IsBlank(Strip(Concat(question.items))));
      } else if questionContent.None? {
        r := Raise(AttributeError("get"));
      } else if IsUploadType(questionContent.value) {
        r := FileHasBeenUploaded(qid, question);
      } else if question.TextAnswer? {
        if question.s == "True" {
          cleanData := cleanData[qid := DBool(true)];
        }
        if question.s == "False" {
          cleanData := cleanData[qid := DBool(false)];
        }
        r := Ok(!IsBlank(question.s));
      } else {
        r := Ok(false);
      }
    }

    // -------------------------------------------------------------------
    // the price rules

    method NoMinPriceSpecified(qid: string, question: Answer) returns (r: Result<bool>)
      modifies this`cleanData, this`dirtyData
      ensures Step(r, State()) == ValidationRules.NoMinPriceSpecified(question, old(State()))
    {
      var minPrice :- Index(question, 0);
      dirtyData := dirtyData["priceMin" := DText(minPrice)];
      KeptPositions();
      r := Ok(!IsBlank(minPrice));
    }

    method MinPriceNotANumber(qid: string, question: Answer) returns (r: Result<bool>)
      modifies this`cleanData, this`dirtyData
      ensures Step(r, State()) == ValidationRules.MinPriceNotANumber(question, old(State()))
    {
      var minPrice :- Index(question, 0);
      dirtyData := dirtyData["priceMin" := DText(minPrice)];
      KeptPositions();
      r := Ok(PriceNumber(minPrice));
    }

    method MaxPriceNotANumber(qid: string, question: Answer) returns (r: Result<bool>)
      modifies this`cleanData, this`dirtyData
      ensures Step(r, State()) == ValidationRules.MaxPriceNotANumber(question, old(State()))
    {
      var maxPrice :- Index(question, 1);
      dirtyData := dirtyData["priceMax" := DText(maxPrice)];
      r := Ok(IsBlank(maxPrice) || PriceNumber(maxPrice));
    }

    method MaxLessThanMin(qid: string, question: Answer) returns (r: Result<bool>)
      ensures Step(r, State()) == ValidationRules.MaxLessThanMin(question, State())
    {
      var pair :- FirstTwo(question);
      r := MaxAboveMin(pair[0], pair[1]);
    }

    method NoUnitSpecified(qid: string, question: Answer) returns (r: Result<bool>)
      modifies this`cleanData, this`dirtyData
      ensures Step(r, State()) == ValidationRules.NoUnitSpecified(question, old(State()))
    {
      var priceUnit :- Index(question, 2);
      dirtyData := dirtyData["priceUnit" := DText(priceUnit)];
      KeptPositions();
      r := Ok(!IsBlank(priceUnit));
    }

    method PriceStringCanBeComposed(qid: string, question: Answer) returns (r: Result<bool>)
      modifies this`cleanData, this`dirtyData
      ensures Step(r, State()) == ValidationRules.PriceStringCanBeComposed(question, old(State()))
    {
      var elements :- Elements(question);
      var four :- Unpack(elements, 4);
      assert ValidationRules.PriceStringCanBeComposed(question, old(State()))
             == ValidationRules.ComposePrice(four[0], four[1], four[2], four[3], old(State()));
      r := ComposePrice(four[0], four[1], four[2], four[3]);
    }

    /** The part of `price_string_can_be_composed` after the unpacking. */
    method ComposePrice(minPrice: string, maxPrice: string, priceUnit: string, priceInterval: string)
      returns (r: Result<bool>)
      modifies this`cleanData, this`dirtyData
      ensures Step(r, State()) == ValidationRules.ComposePrice(minPrice, maxPrice, priceUnit, priceInterval, old(State()))
    {
      ghost var st0 := State();
      var priceString := Pound + minPrice;
      var minNumber :- FormatPriceToNumber(minPrice);
      var clean := cleanData["priceMin" := DNumber(minNumber)];
      ghost var maxData := DNone;
      if !IsBlank(maxPrice) {
        priceString := priceString + ToPound + maxPrice;
        var maxNumber := FormatPriceToNumber(maxPrice);
        if maxNumber.Raise? {
          ComposePriceMaxFails(minPrice, maxPrice, priceUnit, priceInterval, st0, minNumber);
          cleanData := clean;
          KeptPositions();
          return Raise(maxNumber.error);
        }
        clean := clean["priceMax" := DNumber(maxNumber.value)];
        maxData := DNumber(maxNumber.value);
      } else {
        clean := clean["priceMax" := DNone];
      }
      assert MaxNumber(maxPrice) == Ok(maxData);
      priceString := priceString + " per ";
      priceString := priceString + Lower(priceUnit);
      clean := clean["priceUnit" := DText(priceUnit)];
      if !IsBlank(priceInterval) {
        priceString := priceString + " per " + Lower(priceInterval);
        clean := clean["priceInterval" := DText(priceInterval)];
      } else {
        clean := clean["priceInterval" := DText("")];
      }
      clean := clean["priceString" := DText(priceString)];
      assert priceString == PriceString(minPrice, maxPrice, priceUnit, priceInterval);
      ComposePriceStores(minPrice, maxPrice, priceUnit, priceInterval, st0, minNumber, maxData);
      cleanData := clean;
      KeptPositions();
      r := Ok(true);
    }

    // -------------------------------------------------------------------
    // the length rules

    method Under100Characters(qid: string, question: Answer) returns (r: Result<bool>)
      ensures Step(r, State()) == ValidationRules.Under100Characters(question, State())
    {
      match question
      case TextAnswer(s) => r := Ok(|s| <= 100);
      case ListAnswer(items) => r := Ok(|items| <= 100);
      case FileAnswer(_) => r := Raise(TypeError);
    }

    method Under50Words(qid: string, question: Answer) returns (r: Result<bool>)
      ensures Step(r, State()) == ValidationRules.Under50Words(question, State())
    {
      match question
      case TextAnswer(s) => r := Ok(WithinWordLimit(s, 50));
      case _ => r := Raise(AttributeError("split"));
    }

    method ItemsUnder10WordsEach(qid: string, question: Answer) returns (r: Result<bool>)
      ensures Step(r, State()) == ValidationRules.ItemsUnder10WordsEach(question, State())
    {
      var items :- Elements(question);
      var hasLongItem := HasLongItem(items);
      r := Ok(!hasLongItem);
    }

    method Under10Items(qid: string, question: Answer) returns (r: Result<bool>)
      modifies this`cleanData, this`dirtyData
      ensures Step(r, State()) == ValidationRules.Under10Items(qid, question, old(State()))
    {
      var items :- Elements(question);
      var itemsWithEmptyRemoved := NonBlank(items);
      if |itemsWithEmptyRemoved| <= 10 {
        cleanData := cleanData[qid := DList(itemsWithEmptyRemoved)];
        r := Ok(true);
      } else {
        r := Ok(false);
      }
    }

    // -------------------------------------------------------------------
    // validate and question_errors

    /** `validate()`: the errors of every posted answer, in the order the
        answers are posted; `errors` is set when every question could be
        checked. */
    method Validate() returns (r: Result<map<string, Value>>)
      requires Valid()
      modifies this, files
      ensures (r, State()) == ValidateAll(Ctx(), postedData, old(Positions()))
      ensures errors == if r.Ok? then Some(r.value) else old(errors)
    {
      var found := map[];
      cleanData := map[];
      dirtyData := map[];
      KeptPositions();
      for i := 0 to |postedData|
        invariant ValidateAll(Ctx(), postedData, old(Positions())) == Run(Asker(Ctx()), postedData[i..], found, State())
        invariant errors == old(errors)
      {
        var qid := postedData[i].0;
        PostedAt(postedData, i);
        ghost var before := State();
        var reply := QuestionErrors(qid);
        RunStep(Asker(Ctx()), postedData, i, found, before, Reply(reply, State()));
        if reply.Raise? {
          return Raise(reply.error);
        }
        var questionErrors := reply.value;
        if questionErrors.Some? && Truthy(questionErrors.value) {
          found := found[qid := questionErrors.value];
        }
      }
      errors := Some(found);
      r := Ok(found);
    }

    /** `question_errors(question_id)`: `KeyError` for a question that was
        not posted. */
    method QuestionErrors(qid: string) returns (r: Result<Option<Value>>)
      requires Valid()
      modifies this`cleanData, this`dirtyData, files
      ensures Posted(postedData, qid).None? ==> r == Raise(KeyError(qid)) && State() == old(State())
      ensures Posted(postedData, qid).Some? ==>
                Reply(r, State()) == ValidationRules.QuestionErrors(Ctx(), qid, Posted(postedData, qid).value, old(State()))
    {
      var posted := Posted(postedData, qid);
      if posted.None? {
        return Raise(KeyError(qid));
      }
      var question := posted.value;
      assert Owns(question) by {
        var k :| 0 <= k < |postedData| && postedData[k] == (qid, question);
      }
      var questionContent := QuestionOf(Ctx(), qid);
      // `self.test(question_id, question, "answer_required")`
      var answered :- AnswerRequired(qid, question);
      if !answered {
        if questionContent.None? {
          return Raise(TypeError);
        }
        if "optional" in questionContent.value {
          label BeforeOptional:
          if question.TextAnswer? {
            cleanData := cleanData[qid := DText(question.s)];
          }
          KeptPositions@BeforeOptional();
          return Ok(None);
        }
        var stored :- PyIn(qid, service);
        if stored && IsUploadType(questionContent.value) {
          return Ok(None);
        }
      }
      if questionContent.None? {
        return Raise(TypeError);
      }
      r := CheckRules(qid, question, questionContent.value);
    }

    /** The rule loop of `question_errors` and the clean answer it stores
        when every rule passes. */
    method CheckRules(qid: string, question: Answer, questionContent: map<string, Value>)
      returns (r: Result<Option<Value>>)
      requires Owns(question)
      modifies this`cleanData, this`dirtyData, files
      ensures Reply(r, State()) == ValidationRules.CheckRules(Ctx(), qid, question, questionContent, old(State()))
    {
      if "validations" !in questionContent {
        return Raise(KeyError("validations"));
      }
      var rules :- RulesOf(questionContent["validations"]);
      for i := 0 to |rules|
        invariant RunRules(Ctx(), qid, question, rules, old(State()))
                  == RuleLoop(Tester(Ctx(), qid, question), qid, AsData(question), rules[i..], State())
      {
        assert rules[i..][0] == rules[i] && rules[i..][1..] == rules[i + 1..];
        var failure := CheckRule(qid, question, rules[i]);
        if failure != Ok(None) {
          return failure;
        }
      }
      label Passed:
      if qid !in cleanData {
        cleanData := cleanData[qid := AsData(question)];
      }
      KeptPositions@Passed();
      r := Ok(None);
    }

    /** One rule of the loop of `question_errors`: `None` when it passes,
        otherwise its message. */
    method CheckRule(qid: string, question: Answer, rule: Value) returns (r: Result<Option<Value>>)
      requires Owns(question)
      modifies this`cleanData, this`dirtyData, files
      ensures Reply(r, State()) == RuleStep(Tester(Ctx(), qid, question), qid, AsData(question), rule, old(State()))
    {
      var name :- Getitem(rule, "name");
      if !name.Str? {
        return Raise(TypeError);
      }
      var passed :- Test(qid, question, name.s);
      if passed {
        return Ok(None);
      }
      label Failed:
      dirtyData := dirtyData[qid := AsData(question)];
      KeptPositions@Failed();
      var message :- Getitem(rule, "message");
      r := Ok(Some(message));
    }

    // -------------------------------------------------------------------
    // test

    method Test(qid: string, question: Answer, rule: string) returns (r: Result<bool>)
      requires Owns(question)
      modifies this`cleanData, this`dirtyData, Handles(question)
      ensures Step(r, State()) == ValidationRules.Test(Ctx(), qid, question, rule, old(State()))
    {
      if !IsAscii(rule) {
        return Raise(UnicodeEncodeError);
      }
      match Lookup(rule, RuleTable)
      case None =>
        if Documents.Listed(rule, OtherAttributes) {
          r := Raise(TypeError);
        } else {
          r := Raise(ValueError("Validation rule " + rule + " not found"));
        }
      case Some(method_) =>
        r := Apply(method_, qid, question);
    }

    /** `getattr(self, rule)(question_id, question)`. */
    method Apply(rule: Rule, qid: string, question: Answer) returns (r: Result<bool>)
      requires Owns(question)
      modifies this`cleanData, this`dirtyData, Handles(question)
      ensures Step(r, State()) == ValidationRules.Apply(Ctx(), rule, qid, question, old(State()))
    {
      match rule
      case RAnswerRequired => r := AnswerRequired(qid, question);
      case RFileHasBeenUploaded => r := FileHasBeenUploaded(qid, question);
      case RFileCanBeSaved => r := FileCanBeSaved(qid, question);
      case RFileIsLessThan5mb => r := FileIsLessThan5mb(qid, question);
      case RFileIsOpenDocumentFormat => r := FileIsOpenDocumentFormat(qid, question);
      case RNoMinPriceSpecified => r := NoMinPriceSpecified(qid, question);
      case RMinPriceNotANumber => r := MinPriceNotANumber(qid, question);
      case RMaxPriceNotANumber => r := MaxPriceNotANumber(qid, question);
      case RMaxLessThanMin => r := MaxLessThanMin(qid, question);
      case RNoUnitSpecified => r := NoUnitSpecified(qid, question);
      case RPriceStringCanBeComposed => r := PriceStringCanBeComposed(qid, question);
      case RUnder100Characters => r := Under100Characters(qid, question);
      case RUnder50Words => r := Under50Words(qid, question);
      case RItemsUnder10WordsEach => r := ItemsUnder10WordsEach(qid, question);
      case RUnder10Items => r := Under10Items(qid, question);
    }
  }
}
