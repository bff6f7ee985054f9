/** What the `Validate` class of `dmutils/validation.py` computes, stated on
    values: each rule, the `test` dispatch, `question_errors` and
    `validate`.  The state the class updates (`clean_data`, `dirty_data`
    and the read positions of uploaded files) is the value `St`; a rule
    gives its outcome together with the state it leaves, also when it
    raises part way. */
module ValidationRules {

  import opened Results
  import opened Text
  import opened Values
  import opened Prices
  import Documents

  // ---------------------------------------------------------------------
  // answers, stored data, configuration and state

  /** A posted answer: form text, a list of form values, or an upload. */
  datatype Answer =
    | TextAnswer(s: string)
    | ListAnswer(items: seq<string>)
    | FileAnswer(file: Documents.FileHandle)

  /** What `clean_data` and `dirty_data` hold. */
  datatype Data =
    | DText(s: string)
    | DList(items: seq<string>)
    | DFile(file: Documents.FileHandle)
    | DBool(b: bool)
    | DNumber(n: Number)
    | DNone

  function AsData(a: Answer): Data {
    match a
    case TextAnswer(s) => DText(s)
    case ListAnswer(items) => DList(items)
    case FileAnswer(f) => DFile(f)
  }

  /** The collaborators of a `Validate`: `content.get_question` as a
      dictionary per question id (an id without one gives `None`), the
      service record, the documents URL and the uploader (`None` when
      there is none).  `urljoin`, the file-name suffix (the current time in
      the source) and the rendering of lists and dictionaries are
      parameters. */
  datatype Context = Context(
    content: map<string, map<string, Value>>,
    service: Value,
    documentUrl: string,
    uploader: Option<string -> Documents.SaveOutcome>,
    urljoin: (string, string) -> string,
    suffix: string,
    repr: Value -> string)

  function QuestionOf(ctx: Context, qid: string): Option<map<string, Value>> {
    if qid in ctx.content then Some(ctx.content[qid]) else None
  }

  /** `'upload' == question_content.get('type')`. */
  predicate IsUploadType(question: map<string, Value>) {
    "type" in question && question["type"] == Str("upload")
  }

  /** `clean_data`, `dirty_data` and the read position of every file. */
  datatype St = St(clean: map<string, Data>, dirty: map<string, Data>, pos: map<Documents.FileHandle, nat>)

  function PosOf(st: St, f: Documents.FileHandle): nat {
    if f in st.pos then st.pos[f] else 0
  }

  /** A rule's outcome (its truth value, or what it raised) and the state it
      leaves. */
  datatype Step = Step(result: Result<bool>, st: St)

  // ---------------------------------------------------------------------
  // reading an answer as a sequence

  /** `question[k]`: an item of a list, a one-character string of a text; a
      file cannot be indexed. */
  function Index(a: Answer, k: nat): (r: Result<string>)
    ensures a.ListAnswer? && k < |a.items| ==> r == Ok(a.items[k])
    ensures a.ListAnswer? && k >= |a.items| ==> r == Raise(IndexError)
  {
    match a
    case ListAnswer(items) => if k < |items| then Ok(items[k]) else Raise(IndexError)
    case TextAnswer(s) => if k < |s| then Ok([s[k]]) else Raise(IndexError)
    case FileAnswer(_) => Raise(TypeError)
  }

  function Chars(s: string): (r: seq<string>)
    ensures |r| == |s| && forall k :: 0 <= k < |s| ==> r[k] == [s[k]]
  {
    if s == [] then [] else [[s[0]]] + Chars(s[1..])
  }

  /** `for item in question`: the items of a list, the characters of a
      text.  Iterating a file is not modelled. */
  function Elements(a: Answer): Result<seq<string>> {
    match a
    case ListAnswer(items) => Ok(items)
    case TextAnswer(s) => Ok(Chars(s))
    case FileAnswer(_) => Raise(TypeError)
  }

  /** Python 2's message when unpacking `have` values into `want` names. */
  function UnpackMessage(have: nat, want: nat): string {
    if have > want then "too many values to unpack"
    else "need more than " + NatToString(have) + (if have == 1 then " value" else " values") + " to unpack"
  }

  /** `a, b, ... = xs` into exactly `want` names. */
  function Unpack(xs: seq<string>, want: nat): (r: Result<seq<string>>)
    ensures r.Ok? <==> |xs| == want
    ensures r.Ok? ==> r.value == xs
  {
    if |xs| == want then Ok(xs) else Raise(ValueError(UnpackMessage(|xs|, want)))
  }

  // ---------------------------------------------------------------------
  // the rules

  /** `f` is back at the start and nothing else has changed. */
  predicate Rewound(st: St, f: Documents.FileHandle, st': St) {
    st'.clean == st.clean && st'.dirty == st.dirty && st'.pos == st.pos[f := 0]
  }

  /** `file_has_been_uploaded`: one byte can be read; the file is put back
      at the start. */
  function FileHasBeenUploaded(a: Answer, st: St): (r: Step)
    ensures r.result == Ok(true) <==> a.FileAnswer? && PosOf(st, a.file) < |a.file.content|
    ensures a.FileAnswer? ==> r.result.Ok? && Rewound(st, a.file, r.st)
    ensures !a.FileAnswer? ==> r == Step(Raise(AttributeError("read")), st)
  {
    match a
    case FileAnswer(f) => Step(Ok(f.Available(PosOf(st, f)) > 0), st.(pos := st.pos[f := 0]))
    case _ => Step(Raise(AttributeError("read")), st)
  }

  /** `answer_required`: a list needs a non-blank concatenation; an upload
      question needs a byte; text needs a non-blank value, and `"True"` and
      `"False"` are stored as booleans.  A file answer to a question that is
      not an upload gives `None`. */
  function AnswerRequired(ctx: Context, qid: string, a: Answer, st: St): (r: Step)
  {
    match a
    case ListAnswer(items) => Step(Ok(!IsBlank(Strip(Concat(items)))), st)
    case _ =>
      match QuestionOf(ctx, qid)
      case None => Step(Raise(AttributeError("get")), st)
      case Some(question) =>
        if IsUploadType(question) then FileHasBeenUploaded(a, st)
        else
          match a
          case TextAnswer(s) =>
            var clean := if s == "True" then st.clean[qid := DBool(true)]
                         else if s == "False" then st.clean[qid := DBool(false)]
                         else st.clean;
            Step(Ok(!IsBlank(s)), st.(clean := clean))
          case _ => Step(Ok(false), st)
  }

  /** The storage path of `file_can_be_saved`: the service's supplier and
      id, then `generate_file_name`. */
  function SavePath(ctx: Context, qid: string, a: Answer): (r: Result<string>)
    ensures !ctx.service.Dict? ==> r == Raise(TypeError)
    ensures ctx.service.Dict? && "supplierId" in ctx.service.entries && "id" in ctx.service.entries && a.FileAnswer?
            ==> (r == Raise(KeyError(qid)) <==> qid !in Documents.IdToFileNameSuffix)
  {
    var supplierId :- Getitem(ctx.service, "supplierId");
    var serviceId :- Getitem(ctx.service, "id");
    match a
    case FileAnswer(f) => Documents.GenerateFileName(supplierId, serviceId, qid, f.filename, ctx.suffix, ctx.repr)
    case _ => Raise(AttributeError("filename"))
  }

  /** `file_can_be_saved`: the upload is saved under its path and its URL
      stored as the clean answer; an `S3ResponseError` fails the rule. */
  function FileCanBeSaved(ctx: Context, qid: string, a: Answer, st: St): (r: Step)
    ensures r.result != Ok(true) ==> r.st == st
    ensures r.result == Ok(true) ==>
              SavePath(ctx, qid, a).Ok? && ctx.uploader.Some? && ctx.uploader.value(SavePath(ctx, qid, a).value) == Documents.Saved
              && r.st == st.(clean := st.clean[qid := DText(ctx.urljoin(ctx.documentUrl, SavePath(ctx, qid, a).value))])
    ensures r.result == Ok(false) <==>
              SavePath(ctx, qid, a).Ok? && ctx.uploader.Some?
              && ctx.uploader.value(SavePath(ctx, qid, a).value) == Documents.S3ResponseError
  {
    match SavePath(ctx, qid, a)
    case Raise(e) => Step(Raise(e), st)
    case Ok(path) =>
      match ctx.uploader
      case None => Step(Raise(AttributeError("save")), st)
      case Some(save) =>
        match save(path)
        case S3ResponseError => Step(Ok(false), st)
        case SaveFailed(e) => Step(Raise(e), st)
        case Saved => Step(Ok(true), st.(clean := st.clean[qid := DText(ctx.urljoin(ctx.documentUrl, path))]))
  }

  /** `file_is_less_than_5mb`. */
  function FileIsLessThan5mb(a: Answer, st: St): (r: Step)
    ensures r.result == Ok(true) <==> a.FileAnswer? && |a.file.content| < PosOf(st, a.file) + Documents.SizeLimit
    ensures a.FileAnswer? ==> r.result.Ok? && Rewound(st, a.file, r.st)
    ensures !a.FileAnswer? ==> r == Step(Raise(AttributeError("read")), st)
  {
    match a
    case FileAnswer(f) => Step(Ok(f.Available(PosOf(st, f)) < Documents.SizeLimit), st.(pos := st.pos[f := 0]))
    case _ => Step(Raise(AttributeError("read")), st)
  }

  /** `file_is_open_document_format`. */
  function FileIsOpenDocumentFormat(a: Answer, st: St): (r: Step)
    ensures r.st == st
    ensures r.result == Ok(true) <==>
              a.FileAnswer? && Documents.GetExtension(a.file.filename) in Documents.OpenDocumentExtensions
    ensures r.result.Raise? <==> !a.FileAnswer?
  {
    match a
    case FileAnswer(f) => Step(Ok(Documents.FileIsOpenDocumentFormat(f)), st)
    case _ => Step(Raise(AttributeError("filename")), st)
  }

  /** A price the rules accept: a float with the plain decimal form. */
  predicate PriceNumber(s: string) {
    IsAFloat(s) && LessThan5DecimalPlaces(s)
  }

  /** `no_min_price_specified`. */
  function NoMinPriceSpecified(a: Answer, st: St): (r: Step)
    ensures r.st.clean == st.clean && r.st.pos == st.pos
    ensures r.result.Ok? <==> Index(a, 0).Ok?
    ensures r.result.Ok? ==> r.st.dirty == st.dirty["priceMin" := DText(Index(a, 0).value)]
    ensures r.result.Raise? ==> r.st == st
  {
    match Index(a, 0)
    case Raise(e) => Step(Raise(e), st)
    case Ok(min) => Step(Ok(!IsBlank(min)), st.(dirty := st.dirty["priceMin" := DText(min)]))
  }

  /** `min_price_not_a_number`. */
  function MinPriceNotANumber(a: Answer, st: St): (r: Step)
    ensures r.st.clean == st.clean && r.st.pos == st.pos
    ensures r.result.Ok? <==> Index(a, 0).Ok?
    ensures r.result.Ok? ==> r.st.dirty == st.dirty["priceMin" := DText(Index(a, 0).value)]
    ensures r.result.Raise? ==> r.st == st
  {
    match Index(a, 0)
    case Raise(e) => Step(Raise(e), st)
    case Ok(min) => Step(Ok(PriceNumber(min)), st.(dirty := st.dirty["priceMin" := DText(min)]))
  }

  /** `max_price_not_a_number`: an empty maximum passes. */
  function MaxPriceNotANumber(a: Answer, st: St): (r: Step)
    ensures r.st.clean == st.clean && r.st.pos == st.pos
    ensures r.result.Ok? <==> Index(a, 1).Ok?
    ensures r.result.Ok? ==> r.st.dirty == st.dirty["priceMax" := DText(Index(a, 1).value)]
    ensures r.result.Raise? ==> r.st == st
  {
    match Index(a, 1)
    case Raise(e) => Step(Raise(e), st)
    case Ok(max) => Step(Ok(IsBlank(max) || PriceNumber(max)), st.(dirty := st.dirty["priceMax" := DText(max)]))
  }

  /** The first two elements, unpacked: `question[0:2]`. */
  function FirstTwo(a: Answer): (r: Result<seq<string>>)
    ensures r.Ok? ==> |r.value| == 2
  {
    match a
    case ListAnswer(items) => Unpack(items[..if |items| < 2 then |items| else 2], 2)
    case TextAnswer(s) => Unpack(Chars(s[..if |s| < 2 then |s| else 2]), 2)
    case FileAnswer(_) => Raise(TypeError)
  }

  /** `max_less_than_min`: an empty maximum passes; otherwise the maximum
      must be greater, as floats. */
  function MaxLessThanMin(a: Answer, st: St): (r: Step)
  {
    match FirstTwo(a)
    case Raise(e) => Step(Raise(e), st)
    case Ok(pair) => Step(MaxAboveMin(pair[0], pair[1]), st)
  }

  /** `max_less_than_min` once the two prices are unpacked: a blank maximum
      passes, otherwise both are read as floats, the maximum first. */
  function MaxAboveMin(min: string, max: string): Result<bool> {
    if IsBlank(max) then Ok(true)
    else
      var x := PyFloat(max);
      var n := PyFloat(min);
      if x.Raise? then Raise(x.error)
      else if n.Raise? then Raise(n.error)
      else Ok(x.value > n.value)
  }

  /** `no_unit_specified`. */
  function NoUnitSpecified(a: Answer, st: St): (r: Step)
    ensures r.st.clean == st.clean && r.st.pos == st.pos
    ensures r.result.Ok? <==> Index(a, 2).Ok?
    ensures r.result.Ok? ==> r.st.dirty == st.dirty["priceUnit" := DText(Index(a, 2).value)]
    ensures r.result.Raise? ==> r.st == st
  {
    match Index(a, 2)
    case Raise(e) => Step(Raise(e), st)
    case Ok(unit) => Step(Ok(!IsBlank(unit)), st.(dirty := st.dirty["priceUnit" := DText(unit)]))
  }

  const Pound := "\U{00A3}"

  /** The price text of `price_string_can_be_composed`. */
  function PriceString(min: string, max: string, unit: string, interval: string): string {
    var withMin := Pound + min;
    var withMax := if IsBlank(max) then withMin else withMin + ToPound + max;
    var withUnit := withMax + " per " + Lower(unit);
    if IsBlank(interval) then withUnit else withUnit + " per " + Lower(interval)
  }

  const ToPound := " to " + Pound

  /** `format_price_to_number` of a maximum that is not blank; `None` for
      a blank one. */
  function MaxNumber(max: string): Result<Data> {
    if IsBlank(max) then Ok(DNone)
    else match FormatPriceToNumber(max)
      case Ok(n) => Ok(DNumber(n))
      case Raise(e) => Raise(e)
  }

  /** The clean answers `price_string_can_be_composed` stores, in order,
      from the four parts; a number that cannot be read leaves the earlier
      ones stored. */
  function ComposePrice(min: string, max: string, unit: string, interval: string, st: St): (r: Step)
    ensures r.result.Ok? ==> r.result.value
    ensures r.st.dirty == st.dirty && r.st.pos == st.pos
  {
    match FormatPriceToNumber(min)
    case Raise(e) => Step(Raise(e), st)
    case Ok(minNumber) =>
      var clean1 := st.clean["priceMin" := DNumber(minNumber)];
      match MaxNumber(max)
      case Raise(e) => Step(Raise(e), st.(clean := clean1))
      case Ok(m) =>
        var text := PriceString(min, max, unit, interval);
        Step(Ok(true), st.(clean := PriceEntries(st.clean, DNumber(minNumber), m, unit,
                                                 if IsBlank(interval) then "" else interval, text)))
  }

  /** `clean` with the five price entries, written in the order the rule
      writes them. */
  function PriceEntries(clean: map<string, Data>, min: Data, max: Data, unit: string, interval: string, text: string)
    : map<string, Data>
  {
    clean["priceMin" := min]["priceMax" := max]["priceUnit" := DText(unit)]["priceInterval" := DText(interval)]
         ["priceString" := DText(text)]
  }

  lemma {:induction false} PriceEntriesLookup(clean: map<string, Data>, min: Data, max: Data, unit: string, interval: string, text: string)
    ensures var c := PriceEntries(clean, min, max, unit, interval, text);
            c["priceMin"] == min && c["priceMax"] == max && c["priceUnit"] == DText(unit)
            && c["priceInterval"] == DText(interval) && c["priceString"] == DText(text)
  {
  }

  /** `price_string_can_be_composed`: the answer must unpack into exactly
      four values. */
  function PriceStringCanBeComposed(a: Answer, st: St): (r: Step)
    ensures r.result.Ok? ==> r.result.value
    ensures r.st.dirty == st.dirty && r.st.pos == st.pos
  {
    match Elements(a)
    case Raise(e) => Step(Raise(e), st)
    case Ok(xs) =>
      match Unpack(xs, 4)
      case Raise(e) => Step(Raise(e), st)
      case Ok(four) => ComposePrice(four[0], four[1], four[2], four[3], st)
  }

  /** `under_100_characters`. */
  function Under100Characters(a: Answer, st: St): (r: Step)
    ensures r.st == st
    ensures r.result == Ok(true) <==> (a.TextAnswer? && |a.s| <= 100) || (a.ListAnswer? && |a.items| <= 100)
    ensures r.result.Raise? <==> a.FileAnswer?
  {
    match a
    case TextAnswer(s) => Step(Ok(|s| <= 100), st)
    case ListAnswer(items) => Step(Ok(|items| <= 100), st)
    case FileAnswer(_) => Step(Raise(TypeError), st)
  }

  /** `within_word_limit(string, limit)`. */
  predicate WithinWordLimit(s: string, limit: nat) {
    |Words(s)| <= limit
  }

  /** `under_50_words`: only text can be split. */
  function Under50Words(a: Answer, st: St): (r: Step)
    ensures r.st == st
    ensures r.result == Ok(true) <==> a.TextAnswer? && |Words(a.s)| <= 50
    ensures r.result.Raise? <==> !a.TextAnswer?
  {
    match a
    case TextAnswer(s) => Step(Ok(WithinWordLimit(s, 50)), st)
    case _ => Step(Raise(AttributeError("split")), st)
  }

  /** No item has more than ten words. */
  predicate AllItemsShort(items: seq<string>) {
    forall k {:trigger items[k]} :: 0 <= k < |items| ==> WithinWordLimit(items[k], 10)
  }

  /** `items_under_10_words_each`. */
  function ItemsUnder10WordsEach(a: Answer, st: St): (r: Step)
    ensures r.st == st
    ensures a.ListAnswer? ==>
              (r.result == Ok(true) <==> forall k :: 0 <= k < |a.items| ==> |Words(a.items[k])| <= 10)
    ensures r.result.Raise? <==> a.FileAnswer?
  {
    match Elements(a)
    case Raise(e) => Step(Raise(e), st)
    case Ok(items) => Step(Ok(AllItemsShort(items)), st)
  }

  /** The items that are not blank, in order. */
  function NonBlank(items: seq<string>): (r: seq<string>)
    ensures |r| <= |items|
    ensures forall k :: 0 <= k < |r| ==> !IsBlank(r[k])
  {
    if items == [] then []
    else (if IsBlank(items[0]) then [] else [items[0]]) + NonBlank(items[1..])
  }

  /** `under_10_items`: at most ten items that are not blank, which are
      stored as the clean answer. */
  function Under10Items(qid: string, a: Answer, st: St): (r: Step)
    ensures r.st.dirty == st.dirty && r.st.pos == st.pos
    ensures a.ListAnswer? ==> r.result == Ok(|NonBlank(a.items)| <= 10)
    ensures a.ListAnswer? && r.result == Ok(true) ==> r.st.clean == st.clean[qid := DList(NonBlank(a.items))]
    ensures r.result != Ok(true) ==> r.st == st
  {
    match Elements(a)
    case Raise(e) => Step(Raise(e), st)
    case Ok(items) =>
      var kept := NonBlank(items);
      if |kept| <= 10 then Step(Ok(true), st.(clean := st.clean[qid := DList(kept)]))
      else Step(Ok(false), st)
  }

  // ---------------------------------------------------------------------
  // test: finding a rule by name

  datatype Rule =
    | RAnswerRequired | RFileHasBeenUploaded | RFileCanBeSaved | RFileIsLessThan5mb
    | RFileIsOpenDocumentFormat | RNoMinPriceSpecified | RMinPriceNotANumber | RMaxPriceNotANumber
    | RMaxLessThanMin | RNoUnitSpecified | RPriceStringCanBeComposed | RUnder100Characters
    | RUnder50Words | RItemsUnder10WordsEach | RUnder10Items

  /** The rule methods of `Validate`, by name. */
  const RuleTable: seq<(string, Rule)> := [
    ("answer_required", RAnswerRequired),
    ("file_has_been_uploaded", RFileHasBeenUploaded),
    ("file_can_be_saved", RFileCanBeSaved),
    ("file_is_less_than_5mb", RFileIsLessThan5mb),
    ("file_is_open_document_format", RFileIsOpenDocumentFormat),
    ("no_min_price_specified", RNoMinPriceSpecified),
    ("min_price_not_a_number", RMinPriceNotANumber),
    ("max_price_not_a_number", RMaxPriceNotANumber),
    ("max_less_than_min", RMaxLessThanMin),
    ("no_unit_specified", RNoUnitSpecified),
    ("price_string_can_be_composed", RPriceStringCanBeComposed),
    ("under_100_characters", RUnder100Characters),
    ("under_50_words", RUnder50Words),
    ("items_under_10_words_each", RItemsUnder10WordsEach),
    ("under_10_items", RUnder10Items)]

  /** The other attributes of a `Validate`: they exist, but cannot be
      called with a question id and an answer. */
  const OtherAttributes: seq<string> := [
    "content", "document_url", "service", "posted_data", "uploader", "clean_data", "dirty_data",
    "errors", "validate", "question_errors", "test"]

  function Lookup(name: string, table: seq<(string, Rule)>): (r: Option<Rule>)
    ensures r.Some? ==> (name, r.value) in table
    ensures r.None? ==> forall k :: 0 <= k < |table| ==> table[k].0 != name
  {
    if table == [] then None
    else if table[0].0 == name then Some(table[0].1)
    else Lookup(name, table[1..])
  }

  /** Every name in the table is ASCII. */
  predicate NamesAscii(table: seq<(string, Rule)>) {
    forall k :: 0 <= k < |table| ==> IsAscii(table[k].0)
  }

  /** A name that is found is ASCII: every rule name is. */
  lemma {:induction false} LookupAscii(name: string, table: seq<(string, Rule)>)
    requires NamesAscii(table) && Lookup(name, table).Some?
    ensures IsAscii(name)
  {
    if table[0].0 != name {
      assert NamesAscii(table[1..]) by {
        forall k | 0 <= k < |table| - 1 ensures IsAscii(table[1..][k].0) {
          assert table[1..][k] == table[k + 1];
        }
      }
      LookupAscii(name, table[1..]);
    }
  }

  lemma {:induction false} RuleNamesAscii()
    ensures NamesAscii(RuleTable)
  {
    forall k | 0 <= k < |RuleTable| ensures IsAscii(RuleTable[k].0) {
      if k < 2 {
        RuleNamesAsciiBelow2(k);
      } else if k < 4 {
        RuleNamesAsciiBelow4(k);
      } else if k < 6 {
        RuleNamesAsciiBelow6(k);
      } else if k < 8 {
        RuleNamesAsciiBelow8(k);
      } else if k < 10 {
        RuleNamesAsciiBelow10(k);
      } else if k < 12 {
        RuleNamesAsciiBelow12(k);
      } else {
        RuleNamesAsciiBelow15(k);
      }
    }
  }

  lemma {:induction false} RuleNamesAsciiBelow2(k: nat)
    requires 0 <= k < 2
    ensures IsAscii(RuleTable[k].0)
  {
    if k == 0 {
      assert IsAscii(RuleTable[0].0);
    } else {
      assert IsAscii(RuleTable[1].0);
    }
  }

  lemma {:induction false} RuleNamesAsciiBelow4(k: nat)
    requires 2 <= k < 4
    ensures IsAscii(RuleTable[k].0)
  {
    if k == 2 {
      assert IsAscii(RuleTable[2].0);
    } else {
      assert IsAscii(RuleTable[3].0);
    }
  }

  lemma {:induction false} RuleNamesAsciiBelow6(k: nat)
    requires 4 <= k < 6
    ensures IsAscii(RuleTable[k].0)
  {
    if k == 4 {
      assert IsAscii(RuleTable[4].0);
    } else {
      assert IsAscii(RuleTable[5].0);
    }
  }

  lemma {:induction false} RuleNamesAsciiBelow8(k: nat)
    requires 6 <= k < 8
    ensures IsAscii(RuleTable[k].0)
  {
    if k == 6 {
      assert IsAscii(RuleTable[6].0);
    } else {
      assert IsAscii(RuleTable[7].0);
    }
  }

  lemma {:induction false} RuleNamesAsciiBelow10(k: nat)
    requires 8 <= k < 10
    ensures IsAscii(RuleTable[k].0)
  {
    if k == 8 {
      assert IsAscii(RuleTable[8].0);
    } else {
      assert IsAscii(RuleTable[9].0);
    }
  }

  lemma {:induction false} RuleNamesAsciiBelow12(k: nat)
    requires 10 <= k < 12
    ensures IsAscii(RuleTable[k].0)
  {
    if k == 10 {
      assert IsAscii(RuleTable[10].0);
    } else {
      assert IsAscii(RuleTable[11].0);
    }
  }

  lemma {:induction false} RuleNamesAsciiBelow15(k: nat)
    requires 12 <= k < 15
    ensures IsAscii(RuleTable[k].0)
  {
    if k == 12 {
      assert IsAscii(RuleTable[12].0);
    } else if k == 13 {
      assert IsAscii(RuleTable[13].0);
    } else {
      assert IsAscii(RuleTable[14].0);
    }
  }

  function Apply(ctx: Context, rule: Rule, qid: string, a: Answer, st: St): Step {
    match rule
    case RAnswerRequired => AnswerRequired(ctx, qid, a, st)
    case RFileHasBeenUploaded => FileHasBeenUploaded(a, st)
    case RFileCanBeSaved => FileCanBeSaved(ctx, qid, a, st)
    case RFileIsLessThan5mb => FileIsLessThan5mb(a, st)
    case RFileIsOpenDocumentFormat => FileIsOpenDocumentFormat(a, st)
    case RNoMinPriceSpecified => NoMinPriceSpecified(a, st)
    case RMinPriceNotANumber => MinPriceNotANumber(a, st)
    case RMaxPriceNotANumber => MaxPriceNotANumber(a, st)
    case RMaxLessThanMin => MaxLessThanMin(a, st)
    case RNoUnitSpecified => NoUnitSpecified(a, st)
    case RPriceStringCanBeComposed => PriceStringCanBeComposed(a, st)
    case RUnder100Characters => Under100Characters(a, st)
    case RUnder50Words => Under50Words(a, st)
    case RItemsUnder10WordsEach => ItemsUnder10WordsEach(a, st)
    case RUnder10Items => Under10Items(qid, a, st)
  }

  /** `test(question_id, question, rule)`: `hasattr` cannot encode a name
      that is not ASCII and raises `UnicodeEncodeError`; a name that is no
      attribute raises `ValueError`. */
  function Test(ctx: Context, qid: string, a: Answer, name: string, st: St): (r: Step)
    ensures !IsAscii(name) ==> r == Step(Raise(UnicodeEncodeError), st)
    ensures Lookup(name, RuleTable).None? ==> r.st == st && r.result.Raise?
    ensures IsAscii(name) && Lookup(name, RuleTable).None? && name !in OtherAttributes ==>
              r.result == Raise(ValueError("Validation rule " + name + " not found"))
  {
    if !IsAscii(name) then Step(Raise(UnicodeEncodeError), st)
    else match Lookup(name, RuleTable)
    case Some(rule) => Apply(ctx, rule, qid, a, st)
    case None =>
      if Documents.Listed(name, OtherAttributes) then Step(Raise(TypeError), st)
      else Step(Raise(ValueError("Validation rule " + name + " not found")), st)
  }

  // ---------------------------------------------------------------------
  // question_errors

  /** What `question_errors` returns (`None`, or the message of the rule
      that failed, which may itself be any value) and the state it leaves. */
  datatype Reply = Reply(result: Result<Option<Value>>, st: St)

  /** `for rule in question_content["validations"]`: the rules of a list;
      an empty dictionary or text gives none, and anything else cannot give
      a rule that can be indexed by name. */
  function RulesOf(v: Value): Result<seq<Value>> {
    match v
    case List(items) => Ok(items)
    case Dict(entries) => if entries == map[] then Ok([]) else Raise(TypeError)
    case Str(s) => if s == [] then Ok([]) else Raise(TypeError)
    case _ => Raise(TypeError)
  }

  /** One declared rule, run by name with `test`: `None` when it passes,
      otherwise its message, with the raw answer `raw` put in
      `dirty_data`. */
  function RuleStep(test: (string, St) -> Step, qid: string, raw: Data, rule: Value, st: St): (r: Reply)
  {
    match Getitem(rule, "name")
    case Raise(e) => Reply(Raise(e), st)
    case Ok(name) =>
      if !name.Str? then Reply(Raise(TypeError), st)
      else
        var t := test(name.s, st);
        match t.result
        case Raise(e) => Reply(Raise(e), t.st)
        case Ok(passed) =>
          if passed then Reply(Ok(None), t.st)
          else
            var failed := t.st.(dirty := t.st.dirty[qid := raw]);
            match Getitem(rule, "message")
            case Raise(e) => Reply(Raise(e), failed)
            case Ok(message) => Reply(Ok(Some(message)), failed)
  }

  /** The declared rules in order, up to the first that fails: its message,
      or `None` when all pass. */
  function RuleLoop(test: (string, St) -> Step, qid: string, raw: Data, rules: seq<Value>, st: St): (r: Reply)
    decreases |rules|
  {
    if rules == [] then Reply(Ok(None), st)
    else
      var step := RuleStep(test, qid, raw, rules[0], st);
      if step.result == Ok(None) then RuleLoop(test, qid, raw, rules[1..], step.st)
      else step
  }

  /** `test(question_id, question, name)` for one posted answer. */
  function Tester(ctx: Context, qid: string, a: Answer): (string, St) -> Step {
    (name, st) => Test(ctx, qid, a, name, st)
  }

  /** The rule loop of `question_errors`. */
  function RunRules(ctx: Context, qid: string, a: Answer, rules: seq<Value>, st: St): Reply {
    RuleLoop(Tester(ctx, qid, a), qid, AsData(a), rules, st)
  }

  /** The rules of a question, then the raw answer as its clean answer when
      all pass and no rule stored one. */
  function CheckRules(ctx: Context, qid: string, a: Answer, question: map<string, Value>, st: St): (r: Reply)
  {
    if "validations" !in question then Reply(Raise(KeyError("validations")), st)
    else
      match RulesOf(question["validations"])
      case Raise(e) => Reply(Raise(e), st)
      case Ok(rules) =>
        var run := RunRules(ctx, qid, a, rules, st);
        if run.result == Ok(None) && qid !in run.st.clean then
          Reply(Ok(None), run.st.(clean := run.st.clean[qid := AsData(a)]))
        else run
  }

  /** `question_errors(question_id)` for the posted answer `a`.  Its first
      `test` is the one by the name `answer_required`, which is that rule
      (`TestAnswerRequired`). */
  function QuestionErrors(ctx: Context, qid: string, a: Answer, st: St): (r: Reply)
  {
    var required := AnswerRequired(ctx, qid, a, st);
    var st1 := required.st;
    match required.result
    case Raise(e) => Reply(Raise(e), st1)
    case Ok(answered) =>
      match QuestionOf(ctx, qid)
      case None => Reply(Raise(TypeError), st1)
      case Some(question) =>
        if answered then CheckRules(ctx, qid, a, question, st1)
        else if "optional" in question then
          Reply(Ok(None), if a.TextAnswer? then st1.(clean := st1.clean[qid := DText(a.s)]) else st1)
        else
          match PyIn(qid, ctx.service)
          case Raise(e) => Reply(Raise(e), st1)
          case Ok(stored) =>
            if stored && IsUploadType(question) then Reply(Ok(None), st1)
            else CheckRules(ctx, qid, a, question, st1)
  }

  // ---------------------------------------------------------------------
  // validate

  /** The keys of the posted answers. */
  function PostedKeys(posted: seq<(string, Answer)>): set<string> {
    set k | 0 <= k < |posted| :: posted[k].0
  }

  /** The loop of `validate` over `posted` (`posted_data.items()` in
      iteration order), asking `ask` for each answer's reply and adding to
      `errors` the truthy ones. */
  function Run(ask: (string, Answer, St) -> Reply, posted: seq<(string, Answer)>, errors: map<string, Value>, st: St)
    : (Result<map<string, Value>>, St)
    decreases |posted|
  {
    if posted == [] then (Ok(errors), st)
    else
      var (qid, a) := posted[0];
      var reply := ask(qid, a, st);
      match reply.result
      case Raise(e) => (Raise(e), reply.st)
      case Ok(message) =>
        var errors' := if message.Some? && Truthy(message.value) then errors[qid := message.value] else errors;
        Run(ask, posted[1..], errors', reply.st)
  }

  /** One step of the walk over the posted answers. */
  lemma {:induction false} RunStep(ask: (string, Answer, St) -> Reply, posted: seq<(string, Answer)>, i: nat,
                errors: map<string, Value>, st: St, reply: Reply)
    requires i < |posted| && reply == ask(posted[i].0, posted[i].1, st)
    ensures Run(ask, posted[i..], errors, st)
            == if reply.result.Raise? then (Raise(reply.result.error), reply.st)
               else Run(ask, posted[i + 1..],
                        if reply.result.value.Some? && Truthy(reply.result.value.value)
                        then errors[posted[i].0 := reply.result.value.value] else errors,
                        reply.st)
  {
    assert posted[i..][0] == posted[i] && posted[i..][1..] == posted[i + 1..];
  }

  /** `question_errors` of one configuration. */
  function Asker(ctx: Context): (string, Answer, St) -> Reply {
    (qid, a, st) => QuestionErrors(ctx, qid, a, st)
  }

  /** `validate()`: `clean_data` and `dirty_data` start empty; `pos` holds
      the read position of each uploaded file. */
  function ValidateAll(ctx: Context, posted: seq<(string, Answer)>, pos: map<Documents.FileHandle, nat>): (Result<map<string, Value>>, St)
  {
    Run(Asker(ctx), posted, map[], St(map[], map[], pos))
  }

  // ---------------------------------------------------------------------
  // properties of the price rules

  /** A price without the one final newline the pattern allows. */
  function PriceCore(s: string): string {
    if PlainPrice(s) || s == [] then s else s[..|s| - 1]
  }

  /** A price the pattern accepts is read by `float` as its decimal. */
  lemma {:induction false} PriceFloat(s: string)
    requires LessThan5DecimalPlaces(s)
    ensures ParseDecimal(PriceCore(s)).Some? && PyFloat(s) == Ok(ParseDecimal(PriceCore(s)).value)
  {
    PriceIsAFloat(s);
  }

  /** `no_min_price_specified` and `no_unit_specified` on a posted list
      record their field in `dirty_data` and test it for blankness. */
  lemma {:induction false} PresenceChecks(items: seq<string>, st: St)
    requires |items| >= 3
    ensures NoMinPriceSpecified(ListAnswer(items), st)
            == Step(Ok(!IsBlank(items[0])), st.(dirty := st.dirty["priceMin" := DText(items[0])]))
    ensures NoUnitSpecified(ListAnswer(items), st)
            == Step(Ok(!IsBlank(items[2])), st.(dirty := st.dirty["priceUnit" := DText(items[2])]))
  {
  }

  /** `min_price_not_a_number` comes down to the pattern alone, because
      every text the pattern accepts is a float. */
  lemma {:induction false} MinPriceCheck(items: seq<string>, st: St)
    requires |items| >= 1
    ensures MinPriceNotANumber(ListAnswer(items), st)
            == Step(Ok(LessThan5DecimalPlaces(items[0])), st.(dirty := st.dirty["priceMin" := DText(items[0])]))
  {
    if LessThan5DecimalPlaces(items[0]) {
      PriceIsAFloat(items[0]);
    }
  }

  /** `max_price_not_a_number`: blank, or the pattern. */
  lemma {:induction false} MaxPriceCheck(items: seq<string>, st: St)
    requires |items| >= 2
    ensures MaxPriceNotANumber(ListAnswer(items), st)
            == Step(Ok(IsBlank(items[1]) || LessThan5DecimalPlaces(items[1])),
                    st.(dirty := st.dirty["priceMax" := DText(items[1])]))
  {
    if LessThan5DecimalPlaces(items[1]) {
      PriceIsAFloat(items[1]);
    }
  }

  /** A signed, exponent or six-decimal minimum fails `min_price_not_a_number`. */
  lemma {:induction false} MinPriceRefusals(digits: string, decimals: string, rest: seq<string>, st: St)
    requires digits != [] && AllDigits(digits) && AllDigits(decimals) && |decimals| >= 6
    ensures MinPriceNotANumber(ListAnswer(["-" + digits] + rest), st).result == Ok(false)
    ensures MinPriceNotANumber(ListAnswer([digits + "e1"] + rest), st).result == Ok(false)
    ensures MinPriceNotANumber(ListAnswer([digits + "." + decimals] + rest), st).result == Ok(false)
  {
    PriceRefusals(digits, decimals);
  }

  /** An empty maximum passes both maximum checks. */
  lemma {:induction false} EmptyMaxPasses(items: seq<string>, st: St)
    requires |items| >= 2 && IsBlank(items[1])
    ensures MaxPriceNotANumber(ListAnswer(items), st).result == Ok(true)
    ensures MaxLessThanMin(ListAnswer(items), st) == Step(Ok(true), st)
  {
    assert items[..2][1] == items[1];
  }

  /** Two prices the pattern accepts: the maximum must be greater than the
      minimum, as decimals. */
  lemma {:induction false} MaxOverMin(items: seq<string>, st: St, lo: real, hi: real)
    requires |items| >= 2 && LessThan5DecimalPlaces(items[0]) && LessThan5DecimalPlaces(items[1])
    requires !IsBlank(items[1])
    requires ParseDecimal(PriceCore(items[0])) == Some(lo) && ParseDecimal(PriceCore(items[1])) == Some(hi)
    ensures MaxLessThanMin(ListAnswer(items), st) == Step(Ok(hi > lo), st)
  {
    PriceFloat(items[0]);
    PriceFloat(items[1]);
    CompareFloats(items, st, lo, hi);
  }

  lemma {:induction false} CompareFloats(items: seq<string>, st: St, lo: real, hi: real)
    requires |items| >= 2 && !IsBlank(items[1])
    requires PyFloat(items[0]) == Ok(lo) && PyFloat(items[1]) == Ok(hi)
    ensures MaxLessThanMin(ListAnswer(items), st) == Step(Ok(hi > lo), st)
  {
    FirstTwoOfList(items);
    MaxAboveMinOf(items[0], items[1], lo, hi);
  }

  lemma {:induction false} FirstTwoOfList(items: seq<string>)
    requires |items| >= 2
    ensures FirstTwo(ListAnswer(items)) == Ok([items[0], items[1]])
  {
    assert items[..2] == [items[0], items[1]];
  }

  lemma {:induction false} MaxAboveMinOf(min: string, max: string, lo: real, hi: real)
    requires !IsBlank(max) && PyFloat(min) == Ok(lo) && PyFloat(max) == Ok(hi)
    ensures MaxAboveMin(min, max) == Ok(hi > lo)
  {
  }

  /** Four price parts whose numbers can be read: the rule passes and
      stores every part and the price text. */
  lemma {:induction false} PriceComposed(min: string, max: string, unit: string, interval: string, st: St)
    requires FormatPriceToNumber(min).Ok?
    requires IsBlank(max) || FormatPriceToNumber(max).Ok?
    ensures var r := PriceStringCanBeComposed(ListAnswer([min, max, unit, interval]), st);
            r.result == Ok(true)
            && r.st.clean["priceMin"] == DNumber(FormatPriceToNumber(min).value)
            && r.st.clean["priceMax"] == (if IsBlank(max) then DNone else DNumber(FormatPriceToNumber(max).value))
            && r.st.clean["priceUnit"] == DText(unit)
            && r.st.clean["priceInterval"] == DText(if IsBlank(interval) then "" else interval)
            && r.st.clean["priceString"] == DText(PriceString(min, max, unit, interval))
  {
    var m := if IsBlank(max) then DNone else DNumber(FormatPriceToNumber(max).value);
    assert MaxNumber(max) == Ok(m);
    ComposeFourParts(min, max, unit, interval, st);
    ComposePriceStores(min, max, unit, interval, st, FormatPriceToNumber(min).value, m);
    PriceEntriesLookup(st.clean, DNumber(FormatPriceToNumber(min).value), m, unit,
                       if IsBlank(interval) then "" else interval, PriceString(min, max, unit, interval));
  }

  lemma {:induction false} ComposeFourParts(min: string, max: string, unit: string, interval: string, st: St)
    ensures PriceStringCanBeComposed(ListAnswer([min, max, unit, interval]), st) == ComposePrice(min, max, unit, interval, st)
  {
    var xs := [min, max, unit, interval];
    assert Unpack(xs, 4) == Ok(xs);
  }

  lemma {:induction false} ComposePriceStores(min: string, max: string, unit: string, interval: string, st: St, n: Number, m: Data)
    requires FormatPriceToNumber(min) == Ok(n) && MaxNumber(max) == Ok(m)
    ensures ComposePrice(min, max, unit, interval, st)
            == Step(Ok(true), st.(clean := PriceEntries(st.clean, DNumber(n), m, unit, if IsBlank(interval) then "" else interval,
                                                        PriceString(min, max, unit, interval))))
  {
  }

  lemma {:induction false} ComposePriceMaxFails(min: string, max: string, unit: string, interval: string, st: St, n: Number)
    requires FormatPriceToNumber(min) == Ok(n) && MaxNumber(max).Raise?
    ensures ComposePrice(min, max, unit, interval, st)
            == Step(Raise(MaxNumber(max).error), st.(clean := st.clean["priceMin" := DNumber(n)]))
  {
  }

  /** A whole minimum, no maximum and no interval: `£min per unit`. */
  lemma {:induction false} WholePriceComposed(min: string, max: string, unit: string, interval: string, st: St)
    requires min != [] && AllDigits(min) && IsBlank(max) && IsBlank(interval)
    ensures var r := PriceStringCanBeComposed(ListAnswer([min, max, unit, interval]), st);
            r.result == Ok(true)
            && r.st.clean["priceMin"] == DNumber(Whole(DigitsValue(min)))
            && r.st.clean["priceMax"] == DNone
            && r.st.clean["priceInterval"] == DText("")
            && r.st.clean["priceString"] == DText(Pound + min + " per " + Lower(unit))
  {
    FormatWholePrice(min);
    PriceComposed(min, max, unit, interval, st);
  }

  /** A minimum that cannot be read makes the rule raise, with nothing stored. */
  lemma {:induction false} PriceNotComposed(min: string, max: string, unit: string, interval: string, st: St)
    requires FormatPriceToNumber(min).Raise?
    ensures PriceStringCanBeComposed(ListAnswer([min, max, unit, interval]), st)
            == Step(Raise(FormatPriceToNumber(min).error), st)
  {
    ComposeFourParts(min, max, unit, interval, st);
  }

  // ---------------------------------------------------------------------
  // properties of the list rules

  /** Every item that is not blank is kept by `under_10_items`. */
  lemma {:induction false} NonBlankKeeps(items: seq<string>)
    ensures forall x :: x in items && !IsBlank(x) ==> x in NonBlank(items)
  {
    if items != [] {
      NonBlankKeeps(items[1..]);
      assert forall x :: x in items ==> x == items[0] || x in items[1..];
    }
  }

  /** Removing the blank items twice removes nothing more. */
  lemma {:induction false} NonBlankIdempotent(items: seq<string>)
    ensures NonBlank(NonBlank(items)) == NonBlank(items)
  {
    if items != [] {
      NonBlankIdempotent(items[1..]);
      NonBlankAppend(if IsBlank(items[0]) then [] else [items[0]], NonBlank(items[1..]));
    }
  }

  lemma {:induction false} NonBlankAppend(xs: seq<string>, ys: seq<string>)
    ensures NonBlank(xs + ys) == NonBlank(xs) + NonBlank(ys)
  {
    if xs == [] {
      assert xs + ys == ys;
    } else {
      var head := if IsBlank(xs[0]) then [] else [xs[0]];
      assert NonBlank(xs + ys) == head + NonBlank(xs[1..] + ys) by {
        assert (xs + ys)[0] == xs[0];
        assert (xs + ys)[1..] == xs[1..] + ys;
      }
      NonBlankAppend(xs[1..], ys);
      assert head + (NonBlank(xs[1..]) + NonBlank(ys)) == (head + NonBlank(xs[1..])) + NonBlank(ys);
    }
  }

  // ---------------------------------------------------------------------
  // properties of the rule loop

  /** Rules after one that fails or raises are not run; after a prefix that
      passes, the rest runs from the state it leaves. */
  lemma {:induction false} RuleLoopAppend(test: (string, St) -> Step, qid: string, raw: Data, pre: seq<Value>, rest: seq<Value>, st: St)
    ensures var first := RuleLoop(test, qid, raw, pre, st);
            RuleLoop(test, qid, raw, pre + rest, st)
            == if first.result == Ok(None) then RuleLoop(test, qid, raw, rest, first.st) else first
    decreases |pre|
  {
    if pre == [] {
      assert pre + rest == rest;
    } else {
      assert (pre + rest)[0] == pre[0];
      assert (pre + rest)[1..] == pre[1..] + rest;
      var name := Getitem(pre[0], "name");
      if name.Ok? && name.value.Str? {
        var t := test(name.value.s, st);
        if t.result == Ok(true) {
          RuleLoopAppend(test, qid, raw, pre[1..], rest, t.st);
        }
      }
    }
  }

  /** A message comes from a rule that failed: it is that rule's
      `message`, and the raw answer is in `dirty_data`. */
  lemma {:induction false} RuleLoopMessage(test: (string, St) -> Step, qid: string, raw: Data, rules: seq<Value>, st: St)
    requires RuleLoop(test, qid, raw, rules, st).result.Ok? && RuleLoop(test, qid, raw, rules, st).result.value.Some?
    ensures var r := RuleLoop(test, qid, raw, rules, st);
            qid in r.st.dirty && r.st.dirty[qid] == raw
            && exists k :: 0 <= k < |rules| && Getitem(rules[k], "message") == Ok(r.result.value.value)
    decreases |rules|
  {
    var message := RuleLoop(test, qid, raw, rules, st).result.value.value;
    var name := Getitem(rules[0], "name");
    var t := test(name.value.s, st);
    if t.result == Ok(true) {
      RuleLoopMessage(test, qid, raw, rules[1..], t.st);
      var k :| 0 <= k < |rules[1..]| && Getitem(rules[1..][k], "message") == Ok(message);
      assert rules[1..][k] == rules[k + 1];
    } else {
      assert Getitem(rules[0], "message") == Ok(message);
    }
  }

  /** A rule name that is not an attribute raises `ValueError`, or
      `UnicodeEncodeError` when it is not ASCII, and stops the question. */
  lemma {:induction false} UnknownRule(ctx: Context, qid: string, a: Answer, name: string, entries: map<string, Value>, rest: seq<Value>, st: St)
    requires Lookup(name, RuleTable).None? && name !in OtherAttributes
    requires "name" in entries && entries["name"] == Str(name)
    ensures RunRules(ctx, qid, a, [Dict(entries)] + rest, st)
            == Reply(Raise(if IsAscii(name) then ValueError("Validation rule " + name + " not found")
                           else UnicodeEncodeError), st)
  {
    assert ([Dict(entries)] + rest)[0] == Dict(entries);
  }

  // ---------------------------------------------------------------------
  // properties of question_errors

  /** An optional text question left blank has no error, and the text is
      kept as it was posted. */
  lemma {:induction false} OptionalBlankText(ctx: Context, qid: string, s: string, st: St)
    requires QuestionOf(ctx, qid).Some? && "optional" in QuestionOf(ctx, qid).value
    requires !IsUploadType(QuestionOf(ctx, qid).value) && IsBlank(s)
    ensures QuestionErrors(ctx, qid, TextAnswer(s), st) == Reply(Ok(None), st.(clean := st.clean[qid := DText(s)]))
  {
    assert s != "True" && s != "False" by {
      assert !IsBlank("True") && !IsBlank("False") by {
        assert Strip("True")[0] == 'T' by { StripOfStripped("True"); }
        assert Strip("False")[0] == 'F' by { StripOfStripped("False"); }
      }
    }
  }

  /** An optional upload left empty has no error and stores nothing; the
      file is put back at the start. */
  lemma {:induction false} OptionalEmptyFile(ctx: Context, qid: string, f: Documents.FileHandle, st: St)
    requires QuestionOf(ctx, qid).Some? && "optional" in QuestionOf(ctx, qid).value
    requires IsUploadType(QuestionOf(ctx, qid).value) && PosOf(st, f) >= |f.content|
    ensures QuestionErrors(ctx, qid, FileAnswer(f), st) == Reply(Ok(None), st.(pos := st.pos[f := 0]))
  {
  }

  /** An empty upload for a document the service already has is no error
      and stores nothing. */
  lemma {:induction false} PreviouslyUploaded(ctx: Context, qid: string, f: Documents.FileHandle, st: St)
    requires QuestionOf(ctx, qid).Some? && "optional" !in QuestionOf(ctx, qid).value
    requires IsUploadType(QuestionOf(ctx, qid).value) && PosOf(st, f) >= |f.content|
    requires ctx.service.Dict? && qid in ctx.service.entries
    ensures QuestionErrors(ctx, qid, FileAnswer(f), st) == Reply(Ok(None), st.(pos := st.pos[f := 0]))
  {
  }

  /** When every rule passes the question has no error and an answer is
      stored; one a rule stored is kept. */
  lemma {:induction false} AllRulesPass(ctx: Context, qid: string, a: Answer, question: map<string, Value>, rules: seq<Value>, st: St)
    requires "validations" in question && RulesOf(question["validations"]) == Ok(rules)
    requires RunRules(ctx, qid, a, rules, st).result == Ok(None)
    ensures var run := RunRules(ctx, qid, a, rules, st);
            var r := CheckRules(ctx, qid, a, question, st);
            r.result == Ok(None) && qid in r.st.clean
            && r.st.clean[qid] == (if qid in run.st.clean then run.st.clean[qid] else AsData(a))
            && r.st.dirty == run.st.dirty
  {
  }

  /** `"True"` with no rules is stored as the boolean. */
  lemma {:induction false} TrueIsStored(ctx: Context, qid: string, st: St)
    requires QuestionOf(ctx, qid).Some? && !IsUploadType(QuestionOf(ctx, qid).value)
    requires "validations" in QuestionOf(ctx, qid).value && QuestionOf(ctx, qid).value["validations"] == List([])
    ensures QuestionErrors(ctx, qid, TextAnswer("True"), st) == Reply(Ok(None), st.(clean := st.clean[qid := DBool(true)]))
  {
    assert !IsBlank("True") by {
      assert Strip("True")[0] == 'T' by { StripOfStripped("True"); }
    }
  }

  /** A list checked by `under_10_items` alone is stored without its blank
      items. */
  lemma {:induction false} ListIsStoredWithoutBlanks(ctx: Context, qid: string, items: seq<string>, message: Value, st: St)
    requires QuestionOf(ctx, qid).Some?
    requires var q := QuestionOf(ctx, qid).value;
             "validations" in q && q["validations"] == List([Dict(map["name" := Str("under_10_items"), "message" := message])])
    requires !IsBlank(Strip(Concat(items))) && |NonBlank(items)| <= 10
    ensures QuestionErrors(ctx, qid, ListAnswer(items), st)
            == Reply(Ok(None), st.(clean := st.clean[qid := DList(NonBlank(items))]))
  {
    var a := ListAnswer(items);
    var rule := Dict(map["name" := Str("under_10_items"), "message" := message]);
    var stored := st.(clean := st.clean[qid := DList(NonBlank(items))]);
    assert AnswerRequired(ctx, qid, a, st) == Step(Ok(true), st);
    RunUnder10Items(ctx, qid, items, message, st);
    assert CheckRules(ctx, qid, a, QuestionOf(ctx, qid).value, st) == Reply(Ok(None), stored);
  }

  /** `test` by the name `answer_required` runs that rule. */
  lemma {:induction false} TestAnswerRequired(ctx: Context, qid: string, a: Answer, st: St)
    ensures Test(ctx, qid, a, "answer_required", st) == AnswerRequired(ctx, qid, a, st)
  {
    LookupAnswerRequired();
    TestByRule(ctx, qid, a, "answer_required", RAnswerRequired, st);
  }

  lemma {:induction false} LookupAnswerRequired()
    ensures Lookup("answer_required", RuleTable) == Some(RAnswerRequired)
  {
  }

  lemma {:induction false} LookupUnder10Items()
    ensures Lookup("under_10_items", RuleTable) == Some(RUnder10Items)
  {
    var n := "under_10_items";
    forall j | 0 <= j < 14 ensures RuleTable[j].0 != n {
      if j == 12 {
        assert RuleTable[j].0[6] != n[6];
      } else {
        assert |RuleTable[j].0| != |n|;
      }
    }
    LookupFind(n, RuleTable, 14);
  }

  /** The first entry with the name is the one found. */
  lemma {:induction false} LookupFind(name: string, table: seq<(string, Rule)>, k: nat)
    requires k < |table| && table[k].0 == name
    requires forall j :: 0 <= j < k ==> table[j].0 != name
    ensures Lookup(name, table) == Some(table[k].1)
    decreases k
  {
    if k > 0 {
      LookupFind(name, table[1..], k - 1);
    }
  }

  lemma {:induction false} RunUnder10Items(ctx: Context, qid: string, items: seq<string>, message: Value, st: St)
    requires |NonBlank(items)| <= 10
    ensures RunRules(ctx, qid, ListAnswer(items), [Dict(map["name" := Str("under_10_items"), "message" := message])], st)
            == Reply(Ok(None), st.(clean := st.clean[qid := DList(NonBlank(items))]))
  {
    var a := ListAnswer(items);
    var rule := Dict(map["name" := Str("under_10_items"), "message" := message]);
    RuleEntries("under_10_items", message);
    TestUnder10Items(ctx, qid, a, st);
    RuleLoopPasses(Tester(ctx, qid, a), qid, AsData(a), rule, "under_10_items", st,
                   st.(clean := st.clean[qid := DList(NonBlank(items))]));
  }

  /** One rule that passes. */
  lemma {:induction false} RuleLoopPasses(test: (string, St) -> Step, qid: string, raw: Data, rule: Value, name: string, st: St, st': St)
    requires Getitem(rule, "name") == Ok(Str(name)) && test(name, st) == Step(Ok(true), st')
    ensures RuleLoop(test, qid, raw, [rule], st) == Reply(Ok(None), st')
  {
    assert [rule][1..] == [];
  }

  lemma {:induction false} RuleEntries(name: string, message: Value)
    ensures Getitem(Dict(map["name" := Str(name), "message" := message]), "name") == Ok(Str(name))
    ensures Getitem(Dict(map["name" := Str(name), "message" := message]), "message") == Ok(message)
  {
  }

  lemma {:induction false} TestUnder10Items(ctx: Context, qid: string, a: Answer, st: St)
    ensures Test(ctx, qid, a, "under_10_items", st) == Under10Items(qid, a, st)
  {
    LookupUnder10Items();
    TestByRule(ctx, qid, a, "under_10_items", RUnder10Items, st);
    ApplyUnder10Items(ctx, qid, a, st);
  }

  lemma {:induction false} TestByRule(ctx: Context, qid: string, a: Answer, name: string, rule: Rule, st: St)
    requires Lookup(name, RuleTable) == Some(rule)
    ensures Test(ctx, qid, a, name, st) == Apply(ctx, rule, qid, a, st)
  {
    RuleNamesAscii();
    LookupAscii(name, RuleTable);
  }

  lemma {:induction false} ApplyUnder10Items(ctx: Context, qid: string, a: Answer, st: St)
    ensures Apply(ctx, RUnder10Items, qid, a, st) == Under10Items(qid, a, st)
  {
  }

  // ---------------------------------------------------------------------
  // properties of validate

  /** Errors are recorded only under posted ids, and only truthy messages. */
  lemma {:induction false} RunErrors(ask: (string, Answer, St) -> Reply, posted: seq<(string, Answer)>, errors: map<string, Value>, st: St)
    requires Run(ask, posted, errors, st).0.Ok?
    ensures var m := Run(ask, posted, errors, st).0.value;
            m.Keys <= errors.Keys + PostedKeys(posted)
            && forall k :: k in m ==> Truthy(m[k]) || (k in errors && m[k] == errors[k])
    decreases |posted|
  {
    if posted != [] {
      var (qid, a) := posted[0];
      var reply := ask(qid, a, st);
      var message := reply.result.value;
      var errors' := if message.Some? && Truthy(message.value) then errors[qid := message.value] else errors;
      RunErrors(ask, posted[1..], errors', reply.st);
      assert PostedKeys(posted) == {qid} + PostedKeys(posted[1..]) by {
        forall k | k in PostedKeys(posted[1..]) ensures k in PostedKeys(posted) {
          var j :| 0 <= j < |posted[1..]| && posted[1..][j].0 == k;
          assert posted[j + 1].0 == k;
        }
        forall k | k in PostedKeys(posted) ensures k == qid || k in PostedKeys(posted[1..]) {
          var j :| 0 <= j < |posted| && posted[j].0 == k;
          if j > 0 {
            assert posted[1..][j - 1].0 == k;
          }
        }
      }
    }
  }

  /** `validate()`: every error is a truthy message under a posted id. */
  lemma {:induction false} ValidateErrors(ctx: Context, posted: seq<(string, Answer)>, pos: map<Documents.FileHandle, nat>)
    requires ValidateAll(ctx, posted, pos).0.Ok?
    ensures var m := ValidateAll(ctx, posted, pos).0.value;
            m.Keys <= PostedKeys(posted) && forall k :: k in m ==> Truthy(m[k])
  {
    RunErrors(Asker(ctx), posted, map[], St(map[], map[], pos));
  }
}
