/** `Presenters` of `dmutils/presenters.py`: turning a stored service value
    into what a page shows, chosen by the question's `type`.  The class has
    no state, so its methods are functions here. */
module Presenters {

  import opened Results
  import opened Text
  import opened Values

  // ---------------------------------------------------------------------
  // the regular-expression scans of `_service_id`

  predicate HasAsciiLetter(s: string) {
    exists k :: 0 <= k < |s| && IsAsciiLetter(s[k])
  }

  /** `re.findall("....", s)`: scanning from the left, four characters
      none of which is a newline (`.` does not match one) make a match and
      the scan resumes after them; otherwise the scan moves on by one. */
  function Quads(s: string): (r: seq<string>)
    ensures forall k :: 0 <= k < |r| ==> |r[k]| == 4 && '\n' !in r[k]
    decreases |s|
  {
    if |s| < 4 then []
    else if '\n' !in s[..4] then [s[..4]] + Quads(s[4..])
    else Quads(s[1..])
  }

  /** On text without newlines the matches are the consecutive four-character
      chunks from the left, and a shorter remainder is dropped. */
  lemma {:induction false} QuadsChunks(s: string)
    requires '\n' !in s
    ensures |Quads(s)| == |s| / 4
    ensures forall k :: 0 <= k < |s| / 4 ==> Quads(s)[k] == s[4 * k..4 * k + 4]
    decreases |s|
  {
    if |s| >= 4 {
      var rest := s[4..];
      QuadsChunks(rest);
      var q := Quads(s);
      assert q == [s[..4]] + Quads(rest);
      forall k | 0 <= k < |s| / 4
        ensures q[k] == s[4 * k..4 * k + 4]
      {
        if k > 0 {
          assert q[k] == Quads(rest)[k - 1];
          assert rest[4 * (k - 1)..4 * (k - 1) + 4] == s[4 * k..4 * k + 4];
        }
      }
    }
  }

  // ---------------------------------------------------------------------
  // the presenters

  /** `_service_id`: a value whose text holds a letter is shown whole, in a
      list of one; otherwise its text in four-character groups. */
  function ServiceId(value: Value, repr: Value -> string): (r: Result<Value>)
    ensures r.Raise? <==> PyStr(value, repr).Raise?
  {
    var text :- PyStr(value, repr);
    if HasAsciiLetter(text) then Ok(List([value]))
    else Ok(List(StrList(Quads(text))))
  }

  function StrList(ss: seq<string>): (r: seq<Value>)
    ensures |r| == |ss| && forall k :: 0 <= k < |ss| ==> r[k] == Str(ss[k])
  {
    if ss == [] then [] else [Str(ss[0])] + StrList(ss[1..])
  }

  /** `_upload`: the value as the link and its last `/`-separated part as the
      file name.  Only text has `split`; anything else raises. */
  function Upload(value: Value): (r: Result<Value>)
    ensures r.Ok? <==> value.Str?
  {
    match value
    case Str(s) =>
      var parts := SplitOn(s, '/');
      Ok(Dict(map["url" := Str(s), "filename" := Str(parts[|parts| - 1])]))
    case _ => Raise(AttributeError("split"))
  }

  /** `_boolean`: only the two booleans themselves are shown as words. */
  function Boolean(value: Value): (r: Value)
    ensures r == Str("Yes") <==> value == Bool(true)
    ensures r == Str("No") <==> value == Bool(false)
    ensures r != Str("Yes") && r != Str("No") ==> r == Str("")
  {
    if value == Bool(true) then Str("Yes")
    else if value == Bool(false) then Str("No")
    else Str("")
  }

  /** The types that have a presenter. */
  predicate HasPresenter(fieldType: string) {
    fieldType in {"service_id", "upload", "boolean"}
  }

  /** `present(value, question_content)`.  A missing content, a content
      without `type` and a type without a presenter leave the value as it is;
      a `type` that is not text cannot be prefixed with `_`, and `hasattr`
      cannot encode a name that is not ASCII. */
  function Present(value: Value, content: Option<map<string, Value>>, repr: Value -> string): (r: Result<Value>)
  {
    if content.None? || "type" !in content.value then Ok(value)
    else
      match content.value["type"]
      case Str(t) =>
        if !IsAscii(t) then Raise(UnicodeEncodeError)
        else if t == "service_id" then ServiceId(value, repr)
        else if t == "upload" then Upload(value)
        else if t == "boolean" then Ok(Boolean(value))
        else Ok(value)
      case _ => Raise(TypeError)
  }

  /** The value is returned unchanged in the cases the source lists, but
      for a `type` that is not ASCII, which raises. */
  lemma {:induction false} PresentUnchanged(value: Value, content: Option<map<string, Value>>, repr: Value -> string)
    requires content.None? || "type" !in content.value
             || (content.value["type"].Str? && !HasPresenter(content.value["type"].s))
    ensures content.None? || "type" !in content.value || IsAscii(content.value["type"].s) ==>
              Present(value, content, repr) == Ok(value)
    ensures content.Some? && "type" in content.value && !IsAscii(content.value["type"].s) ==>
              Present(value, content, repr) == Raise(UnicodeEncodeError)
  {
  }

  /** What each presenter makes of a value, when its type is named. */
  lemma {:induction false} PresentDispatch(value: Value, content: map<string, Value>, repr: Value -> string)
    requires "type" in content && content["type"].Str? && HasPresenter(content["type"].s)
    ensures content["type"].s == "boolean" ==> Present(value, Some(content), repr) == Ok(Boolean(value))
    ensures content["type"].s == "upload" ==> Present(value, Some(content), repr) == Upload(value)
    ensures content["type"].s == "service_id" ==> Present(value, Some(content), repr) == ServiceId(value, repr)
  {
  }

  /** A service id with no letters and no newline is split into its
      consecutive four-character groups. */
  lemma {:induction false} ServiceIdGroups(s: string, repr: Value -> string)
    requires IsAscii(s) && !HasAsciiLetter(s) && '\n' !in s
    ensures ServiceId(Str(s), repr).Ok?
    ensures var groups := ServiceId(Str(s), repr).value.items;
            |groups| == |s| / 4
            && forall k :: 0 <= k < |s| / 4 ==> groups[k] == Str(s[4 * k..4 * k + 4])
  {
    QuadsChunks(s);
  }

  /** A service id with a letter is shown whole. */
  lemma {:induction false} ServiceIdWithLetter(s: string, repr: Value -> string)
    requires IsAscii(s) && HasAsciiLetter(s)
    ensures ServiceId(Str(s), repr) == Ok(List([Str(s)]))
  {
  }

  /** The file name of an upload is the part after the last `/` (the whole
      text when there is none), and the text ends with it. */
  lemma {:induction false} UploadFileName(s: string)
    ensures var name := Upload(Str(s)).value.entries["filename"].s;
            '/' !in name
            && |name| <= |s| && s[|s| - |name|..] == name
            && (|name| < |s| ==> s[|s| - |name| - 1] == '/')
  {
    var parts := SplitOn(s, '/');
    var name := parts[|parts| - 1];
    JoinSplitOn(s, '/');
    if |parts| == 1 {
      assert s == name;
    } else {
      JoinLast(parts);
      assert s == Join("/", parts[..|parts| - 1]) + "/" + name;
    }
  }

  /** `sep.join` of at least two items ends with the separator and the last. */
  lemma {:induction false} JoinLast(items: seq<string>)
    requires |items| >= 2
    ensures Join("/", items) == Join("/", items[..|items| - 1]) + "/" + items[|items| - 1]
    decreases |items|
  {
    if |items| > 2 {
      JoinLast(items[1..]);
      assert items[1..][..|items| - 2] == items[..|items| - 1][1..];
    } else {
      assert items[..1] == [items[0]];
    }
  }

  // ---------------------------------------------------------------------
  // present_all

  /** The keys of a list of dictionary items. */
  function Keys(items: seq<(string, Value)>): set<string> {
    set k | 0 <= k < |items| :: items[k].0
  }

  predicate DistinctKeys(items: seq<(string, Value)>) {
    forall i, j :: 0 <= i < j < |items| ==> items[i].0 != items[j].0
  }

  /** `present_all(service_data, content)`: `items` is `service_data.items()`
      in iteration order, and `questionOf` is `content.get_question`.  The
      first value that cannot be presented raises. */
  function PresentAll(items: seq<(string, Value)>, questionOf: string -> Option<map<string, Value>>,
                      repr: Value -> string): (r: Result<map<string, Value>>)
    requires DistinctKeys(items)
    ensures r.Ok? ==> r.value.Keys == Keys(items)
    ensures r.Ok? ==> forall k :: 0 <= k < |items| ==>
              Present(items[k].1, questionOf(items[k].0), repr) == Ok(r.value[items[k].0])
    ensures r.Raise? <==> exists k :: 0 <= k < |items| && Present(items[k].1, questionOf(items[k].0), repr).Raise?
    decreases |items|
  {
    if items == [] then Ok(map[])
    else
      var (key, value) := items[0];
      match Present(value, questionOf(key), repr)
      case Raise(e) => Raise(e)
      case Ok(shown) =>
        match PresentAll(items[1..], questionOf, repr)
        case Raise(e) =>
          assert exists k :: 0 <= k < |items[1..]| && Present(items[1..][k].1, questionOf(items[1..][k].0), repr).Raise?;
          Raise(e)
        case Ok(rest) =>
          PresentedCons(items, questionOf, repr, shown, rest);
          Ok(rest[key := shown])
  }

  /** Adding the first item's presented value to what the rest gave. */
  lemma {:induction false} PresentedCons(items: seq<(string, Value)>, questionOf: string -> Option<map<string, Value>>,
                      repr: Value -> string, shown: Value, rest: map<string, Value>)
    requires items != [] && DistinctKeys(items)
    requires Present(items[0].1, questionOf(items[0].0), repr) == Ok(shown)
    requires rest.Keys == Keys(items[1..])
    requires forall k :: 0 <= k < |items[1..]| ==>
               Present(items[1..][k].1, questionOf(items[1..][k].0), repr) == Ok(rest[items[1..][k].0])
    ensures rest[items[0].0 := shown].Keys == Keys(items)
    ensures forall k :: 0 <= k < |items| ==>
              Present(items[k].1, questionOf(items[k].0), repr) == Ok(rest[items[0].0 := shown][items[k].0])
  {
    var key := items[0].0;
    var tail := items[1..];
    forall x | x in Keys(items) ensures x in {key} + Keys(tail) {
      var k :| 0 <= k < |items| && items[k].0 == x;
      if k > 0 { assert tail[k - 1].0 == x; }
    }
    forall x | x in Keys(tail) ensures x in Keys(items) {
      var k :| 0 <= k < |tail| && tail[k].0 == x;
      assert items[k + 1].0 == x;
    }
    forall k | 0 < k < |items|
      ensures Present(items[k].1, questionOf(items[k].0), repr) == Ok(rest[key := shown][items[k].0])
    {
      assert items[k] == tail[k - 1];
      assert items[k].0 != key;
    }
  }
}
