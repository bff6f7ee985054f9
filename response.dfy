/** `react/response.py`: turning a posted form into nested answer data and
    checking that required fields were filled in.

    A posted form is a multi-map: its keys in order, each with the list of
    values posted under it (`request.form.getlist(key)`). */
module Response {

  import opened Results
  import opened Text
  import opened Values

  type Form = seq<(string, seq<string>)>

  const CsrfToken := "csrf_token"

  /** The key a raw form key is stored under: every `[]` removed. */
  function NormalKey(raw: string): string {
    ReplaceAll(raw, "[]", "")
  }

  /** The value stored for a raw key: a lone value under a key without `[]`
      is its stripped text, anything else the list of values as posted. */
  function FieldValue(raw: string, values: seq<string>): (r: Value)
    ensures Contains(raw, "[]") ==> r == List(Strs(values))
    ensures |values| != 1 ==> r == List(Strs(values))
    ensures |values| == 1 && !Contains(raw, "[]") ==> r == Str(Strip(values[0]))
  {
    if |values| == 1 && !Contains(raw, "[]") then Str(Strip(values[0])) else List(Strs(values))
  }

  /** A key with a dot in it has a parent and a child part. */
  lemma {:induction false} DotSplits(key: string)
    requires '.' in key
    ensures |SplitOn(key, '.')| >= 2
  {
    JoinSplitOn(key, '.');
  }

  /** `parent_name` (and `child_name`) of a dotted key. */
  function Parent(key: string): string
    requires '.' in key
  {
    DotSplits(key);
    SplitOn(key, '.')[0]
  }

  function Child(key: string): string
    requires '.' in key
  {
    DotSplits(key);
    SplitOn(key, '.')[1]
  }

  /** The top-level key of the result that a raw form key writes to. */
  function Target(raw: string): string {
    var key := NormalKey(raw);
    if '.' in key then Parent(key) else key
  }

  /** One pass of the loop of `from_response`: the CSRF token is skipped, a
      plain key is (over)written, a dotted key writes into the dictionary of
      its parent, creating it on first use.  A parent that already holds a
      text or a list cannot take an item: `TypeError`. */
  function Insert(m: map<string, Value>, raw: string, values: seq<string>): Result<map<string, Value>>
  {
    if raw == CsrfToken then Ok(m)
    else
      var key := NormalKey(raw);
      var value := FieldValue(raw, values);
      if '.' !in key then Ok(m[key := value])
      else
        var parent := Parent(key);
        var siblings := if parent in m then m[parent] else Dict(map[]);
        if !siblings.Dict? then Raise(TypeError)
        else Ok(m[parent := Dict(siblings.entries[Child(key) := value])])
  }

  /** What one pass does: nothing for the token; otherwise the target key
      is (re)written and every other key kept, and the only failure is a
      dotted key whose parent holds something other than a dictionary. */
  lemma {:induction false} InsertCases(m: map<string, Value>, raw: string, values: seq<string>)
    ensures raw == CsrfToken ==> Insert(m, raw, values) == Ok(m)
    ensures Insert(m, raw, values).Raise? <==>
              raw != CsrfToken && '.' in NormalKey(raw)
              && Target(raw) in m && !m[Target(raw)].Dict?
    ensures Insert(m, raw, values).Raise? ==> Insert(m, raw, values).error == TypeError
    ensures Insert(m, raw, values).Ok? && raw != CsrfToken ==>
              Insert(m, raw, values).value.Keys == m.Keys + {Target(raw)}
              && forall k :: k in m && k != Target(raw) ==> Insert(m, raw, values).value[k] == m[k]
    ensures Insert(m, raw, values).Ok? && raw != CsrfToken && '.' !in NormalKey(raw) ==>
              Insert(m, raw, values).value[Target(raw)] == FieldValue(raw, values)
    ensures Insert(m, raw, values).Ok? && raw != CsrfToken && '.' in NormalKey(raw) ==>
              var key := NormalKey(raw);
              var before := if Parent(key) in m then m[Parent(key)].entries else map[];
              Insert(m, raw, values).value[Parent(key)] == Dict(before[Child(key) := FieldValue(raw, values)])
  {
  }

  /** The result after the first `n` form keys. */
  function Collected(form: Form, n: nat): Result<map<string, Value>>
    requires n <= |form|
  {
    if n == 0 then Ok(map[])
    else
      var m :- Collected(form, n - 1);
      Insert(m, form[n - 1].0, form[n - 1].1)
  }

  /** `from_response(request)`, as a value. */
  function FormData(form: Form): Result<map<string, Value>> {
    Collected(form, |form|)
  }

  /** Once a key fails, the whole form fails with that error. */
  lemma {:induction false} RaiseSticks(form: Form, i: nat, n: nat)
    requires i <= n <= |form| && Collected(form, i).Raise?
    ensures Collected(form, n) == Collected(form, i)
    decreases n - i
  {
    if i < n {
      assert Collected(form, i + 1) == Collected(form, i);
      RaiseSticks(form, i + 1, n);
    }
  }

  lemma {:induction false} CollectedStep(form: Form, i: nat, m: map<string, Value>)
    requires i < |form| && Collected(form, i) == Ok(m)
    ensures Collected(form, i + 1) == Insert(m, form[i].0, form[i].1)
  {
  }

  /** `from_response(request)`: builds the result in place, key by key. */
  method FromResponse(form: Form) returns (r: Result<map<string, Value>>)
    ensures r == FormData(form)
  {
    var result: map<string, Value> := map[];
    var i := 0;
    while i < |form|
      invariant 0 <= i <= |form|
      invariant Collected(form, i) == Ok(result)
    {
      var raw := form[i].0;
      CollectedStep(form, i, result);
      if raw != CsrfToken {
        var values := form[i].1;
        var key := NormalKey(raw);
        var value := FieldValue(raw, values);
        if '.' !in key {
          result := result[key := value];
        } else {
          var parent := Parent(key);
          var siblings := if parent in result then result[parent] else Dict(map[]);
          if !siblings.Dict? {
            RaiseSticks(form, i + 1, |form|);
            return Raise(TypeError);
          }
          result := result[parent := Dict(siblings.entries[Child(key) := value])];
        }
      }
      i := i + 1;
    }
    r := Ok(result);
  }

  /** The keys of the result are exactly the targets of the form's keys
      other than the CSRF token. */
  lemma {:induction false} CollectedKeys(form: Form, n: nat)
    requires n <= |form| && Collected(form, n).Ok?
    ensures forall t :: t in Collected(form, n).value <==>
              exists i :: 0 <= i < n && form[i].0 != CsrfToken && Target(form[i].0) == t
  {
    if n > 0 {
      CollectedKeys(form, n - 1);
      InsertCases(Collected(form, n - 1).value, form[n - 1].0, form[n - 1].1);
    }
  }

  lemma {:induction false} FormDataKeys(form: Form)
    requires FormData(form).Ok?
    ensures forall t :: t in FormData(form).value <==>
              exists i :: 0 <= i < |form| && form[i].0 != CsrfToken && Target(form[i].0) == t
  {
    CollectedKeys(form, |form|);
  }

  /** No CSRF token in the result, unless another raw key (such as
      `csrf_token[]` or `csrf_token.x`) targets that name. */
  lemma {:induction false} CsrfTokenLeftOut(form: Form)
    requires FormData(form).Ok?
    requires forall i :: 0 <= i < |form| && form[i].0 != CsrfToken ==> Target(form[i].0) != CsrfToken
    ensures CsrfToken !in FormData(form).value
  {
    FormDataKeys(form);
  }

  /** The token is dropped by its raw name only: `csrf_token[]` is kept,
      under the name `csrf_token`. */
  lemma {:induction false} CsrfTokenListKept()
    ensures FormData([("csrf_token[]", ["t"])]) == Ok(map[CsrfToken := List([Str("t")])])
  {
    var form := [("csrf_token[]", ["t"])];
    CsrfTokenChars();
    InsertList(map[], CsrfToken, ["t"]);
    assert CsrfToken + "[]" == "csrf_token[]";
    assert Strs(["t"]) == [Str("t")];
    CollectedStep(form, 0, map[]);
    assert FormData(form) == Collected(form, 1);
  }

  /** The form without the keys whose values would be stored under the
      token's name: `csrf_token` itself, `csrf_token[]`, `csrf_token.x`. */
  function WithoutToken(form: Form): (r: Form)
    ensures forall i :: 0 <= i < |r| ==> Target(r[i].0) != CsrfToken && r[i] in form
    ensures forall i :: 0 <= i < |form| && Target(form[i].0) != CsrfToken ==> form[i] in r
  {
    if form == [] then []
    else
      var rest := WithoutToken(form[1..]);
      assert forall i :: 1 <= i < |form| ==> form[i] == form[1..][i - 1];
      (if Target(form[0].0) == CsrfToken then [] else [form[0]]) + rest
  }

  /** `from_response` skipping the token under every raw key that names it,
      as the skipped `csrf_token` key is evidently meant to. */
  function FormDataWithoutToken(form: Form): Result<map<string, Value>> {
    FormData(WithoutToken(form))
  }

  /** Skipping every key that names the token, the result never holds it,
      and holds the target of every other key. */
  lemma {:induction false} TokenNeverStored(form: Form)
    requires FormDataWithoutToken(form).Ok?
    ensures CsrfToken !in FormDataWithoutToken(form).value
    ensures forall i :: 0 <= i < |form| && Target(form[i].0) != CsrfToken ==> Target(form[i].0) in FormDataWithoutToken(form).value
  {
    var kept := WithoutToken(form);
    CsrfTokenLeftOut(kept);
    FormDataKeys(kept);
    forall i | 0 <= i < |form| && Target(form[i].0) != CsrfToken
      ensures Target(form[i].0) in FormData(kept).value
    {
      var j :| 0 <= j < |kept| && kept[j] == form[i];
      assert kept[j].0 != CsrfToken by {
        CsrfTokenChars();
        PlainKey(CsrfToken);
      }
    }
  }

  /** `csrf_token[]` is now skipped as well. */
  lemma {:induction false} CsrfTokenListDropped()
    ensures FormDataWithoutToken([("csrf_token[]", ["t"])]) == Ok(map[])
  {
    CsrfTokenChars();
    ListKey(CsrfToken);
    assert CsrfToken + "[]" == "csrf_token[]";
    assert Target("csrf_token[]") == CsrfToken;
    assert WithoutToken([("csrf_token[]", ["t"])]) == [] by {
      assert [("csrf_token[]", ["t"])][1..] == [];
    }
  }

  lemma {:induction false} CsrfTokenChars()
    ensures '.' !in CsrfToken && '[' !in CsrfToken
  {
  }

  /** A key without brackets is stored as it is, and a lone value under it
      as its stripped text. */
  lemma {:induction false} PlainKey(k: string)
    requires '[' !in k
    ensures NormalKey(k) == k && !Contains(k, "[]")
  {
    ReplaceAllPrefix(k, [], "[]", "");
    assert k + [] == k;
    LacksFirst(k, "[]");
  }

  /** A key `k[]` is stored as `k`, and always with the list of values. */
  lemma {:induction false} ListKey(k: string)
    requires '[' !in k
    ensures NormalKey(k + "[]") == k && Contains(k + "[]", "[]")
  {
    ReplaceAllPrefix(k, "[]", "[]", "");
    assert ReplaceAll("[]", "[]", "") == [] by {
      assert StartsWith("[]", "[]") && "[]"[2..] == [];
    }
    assert k + [] == k;
    assert OccursAt(k + "[]", "[]", |k|);
  }

  /** Storing under a plain key. */
  lemma {:induction false} InsertPlain(m: map<string, Value>, k: string, values: seq<string>)
    requires '[' !in k && '.' !in k && k != CsrfToken
    ensures Insert(m, k, values) == Ok(m[k := FieldValue(k, values)])
  {
    PlainKey(k);
  }

  /** Storing under a key `k[]`, which is never the token's own name. */
  lemma {:induction false} InsertList(m: map<string, Value>, k: string, values: seq<string>)
    requires '[' !in k && '.' !in k
    ensures Insert(m, k + "[]", values) == Ok(m[k := List(Strs(values))])
  {
    ListKey(k);
    var raw := k + "[]";
    assert raw != CsrfToken by {
      assert raw[|raw| - 1] == ']' && CsrfToken[|CsrfToken| - 1] == 'n';
    }
  }

  /** Storing under a key `p.c` whose parent is not yet there. */
  lemma {:induction false} InsertDotted(m: map<string, Value>, p: string, c: string, values: seq<string>)
    requires '[' !in p && '[' !in c && '.' !in p && '.' !in c && p !in m
    ensures Insert(m, p + "." + c, values) == Ok(m[p := Dict(map[c := FieldValue(p + "." + c, values)])])
  {
    DottedKey(p, c);
    CsrfTokenChars();
    var key := p + "." + c;
    assert key != CsrfToken by {
      assert key[|p|] == '.';
    }
  }

  /** A key `p.c` names parent `p` and child `c`. */
  lemma {:induction false} DottedKey(p: string, c: string)
    requires '[' !in p && '[' !in c && '.' !in p && '.' !in c
    ensures var key := p + "." + c;
            NormalKey(key) == key && !Contains(key, "[]") && '.' in key
            && Parent(key) == p && Child(key) == c
  {
    var key := p + "." + c;
    assert key[|p|] == '.' && '[' !in key;
    PlainKey(key);
    assert key == p + ['.'] + c;
    SplitOnFirst(p, c, '.');
    SplitOnFirst(c, [], '.');
  }

  /** Later keys with other targets leave an entry alone. */
  lemma {:induction false} LaterKeep(form: Form, i: nat, n: nat, t: string, v: Value)
    requires i <= n <= |form| && Collected(form, n).Ok?
    requires Collected(form, i).Ok? && t in Collected(form, i).value && Collected(form, i).value[t] == v
    requires forall j :: i <= j < |form| && form[j].0 != CsrfToken ==> Target(form[j].0) != t
    ensures t in Collected(form, n).value && Collected(form, n).value[t] == v
    decreases n - i
  {
    if i < n {
      var m := Collected(form, i).value;
      CollectedStep(form, i, m);
      if Collected(form, i + 1).Raise? {
        RaiseSticks(form, i + 1, n);
      }
      InsertKeeps(m, form[i].0, form[i].1, t, v);
      LaterKeep(form, i + 1, n, t, v);
    }
  }

  lemma {:induction false} InsertKeeps(m: map<string, Value>, raw: string, values: seq<string>, t: string, v: Value)
    requires Insert(m, raw, values).Ok? && t in m && m[t] == v
    requires raw != CsrfToken ==> Target(raw) != t
    ensures t in Insert(m, raw, values).value && Insert(m, raw, values).value[t] == v
  {
    InsertCases(m, raw, values);
  }

  /** A plain key that no later key targets keeps the value posted under
      it. */
  lemma {:induction false} PlainKeyStored(form: Form, i: nat)
    requires i < |form| && FormData(form).Ok?
    requires form[i].0 != CsrfToken && '.' !in NormalKey(form[i].0)
    requires forall j :: i < j < |form| && form[j].0 != CsrfToken ==> Target(form[j].0) != Target(form[i].0)
    ensures var key := NormalKey(form[i].0);
            key in FormData(form).value && FormData(form).value[key] == FieldValue(form[i].0, form[i].1)
  {
    if Collected(form, i + 1).Raise? {
      RaiseSticks(form, i + 1, |form|);
    }
    LaterKeep(form, i + 1, |form|, Target(form[i].0), FieldValue(form[i].0, form[i].1));
  }

  /** Later keys never remove a child of a parent dictionary: at worst a
      later write to the same child replaces its value. */
  lemma {:induction false} LaterKeepChild(form: Form, i: nat, n: nat, p: string, c: string, v: Value)
    requires i <= n <= |form| && Collected(form, n).Ok?
    requires Collected(form, i).Ok? && p in Collected(form, i).value
    requires Collected(form, i).value[p].Dict? && c in Collected(form, i).value[p].entries
    requires Collected(form, i).value[p].entries[c] == v
    requires forall j :: i <= j < |form| && form[j].0 != CsrfToken && Target(form[j].0) == p ==>
               '.' in NormalKey(form[j].0) && Child(NormalKey(form[j].0)) != c
    ensures p in Collected(form, n).value && Collected(form, n).value[p].Dict?
    ensures c in Collected(form, n).value[p].entries && Collected(form, n).value[p].entries[c] == v
    decreases n - i
  {
    if i < n {
      var m := Collected(form, i).value;
      CollectedStep(form, i, m);
      if Collected(form, i + 1).Raise? {
        RaiseSticks(form, i + 1, n);
      }
      InsertKeepsChild(m, form[i].0, form[i].1, p, c, v);
      LaterKeepChild(form, i + 1, n, p, c, v);
    }
  }

  lemma {:induction false} InsertKeepsChild(m: map<string, Value>, raw: string, values: seq<string>, p: string, c: string, v: Value)
    requires Insert(m, raw, values).Ok?
    requires p in m && m[p].Dict? && c in m[p].entries && m[p].entries[c] == v
    requires raw != CsrfToken && Target(raw) == p ==> '.' in NormalKey(raw) && Child(NormalKey(raw)) != c
    ensures var r := Insert(m, raw, values).value;
            p in r && r[p].Dict? && c in r[p].entries && r[p].entries[c] == v
  {
    InsertCases(m, raw, values);
  }

  /** A key `parent.child` is stored as `result[parent][child]` unless a
      later key overwrites the parent or the same child. */
  lemma {:induction false} DottedKeyStored(form: Form, i: nat)
    requires i < |form| && FormData(form).Ok?
    requires form[i].0 != CsrfToken && '.' in NormalKey(form[i].0)
    requires var key := NormalKey(form[i].0);
             forall j :: i < j < |form| && form[j].0 != CsrfToken && Target(form[j].0) == Parent(key) ==>
               '.' in NormalKey(form[j].0) && Child(NormalKey(form[j].0)) != Child(key)
    ensures var key := NormalKey(form[i].0);
            Parent(key) in FormData(form).value && FormData(form).value[Parent(key)].Dict?
            && Child(key) in FormData(form).value[Parent(key)].entries
            && FormData(form).value[Parent(key)].entries[Child(key)] == FieldValue(form[i].0, form[i].1)
  {
    if Collected(form, i + 1).Raise? {
      RaiseSticks(form, i + 1, |form|);
    }
    var key := NormalKey(form[i].0);
    LaterKeepChild(form, i + 1, |form|, Parent(key), Child(key), FieldValue(form[i].0, form[i].1));
  }

  /** A form with a plain key, a `[]` key and a dotted key, in that
      order, each without brackets or dots of its own. */
  lemma {:induction false} ThreeKinds(a: string, x: string, b: string, ys: seq<string>, p: string, c: string, z: string)
    requires '[' !in a && '.' !in a && a != CsrfToken
    requires '[' !in b && '.' !in b
    requires '[' !in p && '.' !in p && '[' !in c && '.' !in c && p != a && p != b
    requires x != [] ==> !IsSpace(x[0]) && !IsSpace(x[|x| - 1])
    requires z != [] ==> !IsSpace(z[0]) && !IsSpace(z[|z| - 1])
    ensures FormData([(a, [x]), (b + "[]", ys), (p + "." + c, [z])])
            == Ok(map[a := Str(x), b := List(Strs(ys)), p := Dict(map[c := Str(z)])])
  {
    var form := [(a, [x]), (b + "[]", ys), (p + "." + c, [z])];
    var m1 := map[a := Str(x)];
    var m2 := m1[b := List(Strs(ys))];
    var m3 := m2[p := Dict(map[c := Str(z)])];
    assert Collected(form, 1) == Ok(m1) by {
      StripOfStripped(x);
      PlainKey(a);
      InsertPlain(map[], a, [x]);
      CollectedStep(form, 0, map[]);
    }
    assert Collected(form, 2) == Ok(m2) by {
      InsertList(m1, b, ys);
      CollectedStep(form, 1, m1);
    }
    assert Collected(form, 3) == Ok(m3) by {
      StripOfStripped(z);
      DottedKey(p, c);
      InsertDotted(m2, p, c, [z]);
      CollectedStep(form, 2, m2);
    }
  }

  /** The form of `test_extract_response`. */
  lemma {:induction false} ExtractResponseExample()
    ensures FormData([("a", ["1"]), ("b[]", ["2", "3"]), ("c.d", ["4"])])
            == Ok(map["a" := Str("1"), "b" := List([Str("2"), Str("3")]), "c" := Dict(map["d" := Str("4")])])
  {
    assert "a" != CsrfToken && "c" != "a" && "c" != "b";
    assert '.' !in "a" && '[' !in "a" && '.' !in "b" && '[' !in "b";
    assert '.' !in "c" && '.' !in "d" && '[' !in "c" && '[' !in "d";
    assert "b[]" == "b" + "[]" && "c.d" == "c" + "." + "d";
    assert Strs(["2", "3"]) == [Str("2"), Str("3")];
    ThreeKinds("a", "1", "b", ["2", "3"], "c", "d", "4");
  }

  // ---------------------------------------------------------------------
  // validate_form_data

  /** `v[0]` of a stored answer: the first character of a text, the first
      item of a list. */
  function FirstItem(v: Value): (r: Result<Value>)
    ensures v.Str? && v.s != [] ==> r == Ok(Str([v.s[0]]))
    ensures v.List? && v.items != [] ==> r == Ok(v.items[0])
    ensures r.Raise? <==> !(v.Str? || v.List?) || !Truthy(v)
  {
    match v
    case Str(s) => if s == [] then Raise(IndexError) else Ok(Str([s[0]]))
    case List(items) => if items == [] then Raise(IndexError) else Ok(items[0])
    case Dict(_) => Raise(KeyError("0"))
    case _ => Raise(TypeError)
  }

  /** The test of `validate_form_data` for one field: missing or falsy, or
      with a falsy first item.  Only a truthy answer is indexed. */
  function Missing(data: map<string, Value>, field: string): (r: Result<bool>)
    ensures field !in data || !Truthy(data[field]) ==> r == Ok(true)
    ensures field in data && data[field].Str? && data[field].s != [] ==> r == Ok(false)
    ensures field in data && data[field].List? && data[field].items != [] ==>
              r == Ok(!Truthy(data[field].items[0]))
    ensures r.Raise? <==> field in data && Truthy(data[field]) && !(data[field].Str? || data[field].List?)
  {
    if field !in data || !Truthy(data[field]) then Ok(true)
    else
      var first :- FirstItem(data[field]);
      Ok(!Truthy(first))
  }

  const Required := Dict(map["required" := Bool(true)])

  /** The errors after the first `n` required fields. */
  function RequiredErrors(data: map<string, Value>, fields: seq<string>, n: nat): Result<map<string, Value>>
    requires n <= |fields|
  {
    if n == 0 then Ok(map[])
    else
      var errors :- RequiredErrors(data, fields, n - 1);
      var missing :- Missing(data, fields[n - 1]);
      Ok(if missing then errors[fields[n - 1] := Required] else errors)
  }

  /** `validate_form_data(data, required_fields)`. */
  method ValidateFormData(data: map<string, Value>, fields: seq<string>) returns (r: Result<map<string, Value>>)
    ensures r == RequiredErrors(data, fields, |fields|)
  {
    var errors: map<string, Value> := map[];
    for i := 0 to |fields|
      invariant RequiredErrors(data, fields, i) == Ok(errors)
    {
      var field := fields[i];
      var empty := field !in data || !Truthy(data[field]);
      if !empty {
        var first := FirstItem(data[field]);
        if first.Raise? {
          ValidateRaiseSticks(data, fields, i + 1, |fields|);
          return Raise(first.error);
        }
        empty := !Truthy(first.value);
      }
      if empty {
        errors := errors[field := Required];
      }
    }
    r := Ok(errors);
  }

  lemma {:induction false} ValidateRaiseSticks(data: map<string, Value>, fields: seq<string>, i: nat, n: nat)
    requires i <= n <= |fields| && RequiredErrors(data, fields, i).Raise?
    ensures RequiredErrors(data, fields, n) == RequiredErrors(data, fields, i)
    decreases n - i
  {
    if i < n {
      assert RequiredErrors(data, fields, i + 1) == RequiredErrors(data, fields, i);
      ValidateRaiseSticks(data, fields, i + 1, n);
    }
  }

  /** The check fails only where it indexes an answer that cannot be
      indexed. */
  lemma {:induction false} RequiredErrorsFailure(data: map<string, Value>, fields: seq<string>, n: nat)
    requires n <= |fields|
    ensures RequiredErrors(data, fields, n).Raise? <==>
              exists k :: 0 <= k < n && Missing(data, fields[k]).Raise?
  {
    if n > 0 {
      RequiredErrorsFailure(data, fields, n - 1);
    }
  }

  /** The errors name exactly the required fields that are missing, each
      with `{"required": True}`. */
  lemma {:induction false} RequiredErrorsMeaning(data: map<string, Value>, fields: seq<string>, n: nat)
    requires n <= |fields| && RequiredErrors(data, fields, n).Ok?
    ensures var errors := RequiredErrors(data, fields, n).value;
            (forall f :: f in errors ==> errors[f] == Required)
            && (forall f :: f in errors <==> exists k :: 0 <= k < n && fields[k] == f && Missing(data, f) == Ok(true))
  {
    if n > 0 {
      var prev := RequiredErrors(data, fields, n - 1);
      assert prev.Ok?;
      RequiredErrorsMeaning(data, fields, n - 1);
      var f := fields[n - 1];
      var next := if Missing(data, f).value then prev.value[f := Required] else prev.value;
      assert RequiredErrors(data, fields, n) == Ok(next);
    }
  }

  /** The error keys are required fields, and each required field is an
      error key iff it is missing. */
  lemma {:induction false} ValidateFormDataKeys(data: map<string, Value>, fields: seq<string>)
    requires RequiredErrors(data, fields, |fields|).Ok?
    ensures var errors := RequiredErrors(data, fields, |fields|).value;
            (forall f :: f in errors ==> f in fields && errors[f] == Required)
            && (forall k :: 0 <= k < |fields| ==> (fields[k] in errors <==> Missing(data, fields[k]) == Ok(true)))
  {
    RequiredErrorsMeaning(data, fields, |fields|);
  }

  /** When every required field is answered there are no errors. */
  lemma {:induction false} ValidFormNoErrors(data: map<string, Value>, fields: seq<string>)
    requires forall k :: 0 <= k < |fields| ==> Missing(data, fields[k]) == Ok(false)
    ensures RequiredErrors(data, fields, |fields|) == Ok(map[])
  {
    RequiredErrorsFailure(data, fields, |fields|);
    RequiredErrorsMeaning(data, fields, |fields|);
    var errors := RequiredErrors(data, fields, |fields|).value;
    assert errors.Keys == {};
  }

  /** `test_valid_form` and `test_invalid_form`. */
  lemma {:induction false} ValidateFormDataExamples()
    ensures RequiredErrors(map["key1" := Str("value1"), "key2" := Str("value2")], ["key1", "key2"], 2) == Ok(map[])
    ensures RequiredErrors(map["key1" := Str("value1")], ["key1", "key2"], 2) == Ok(map["key2" := Required])
  {
  }
}
