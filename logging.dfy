/** The pure and record-rewriting parts of `dmutils/logging.py`: escaping
    for Slack messages, the record fields named by a log format, and the
    renaming of record keys for JSON logs. */
module Logging {

  import opened Results
  import opened Text
  import opened Values

  // ---------------------------------------------------------------------
  // slack_escape

  /** `slack_escape(text)`: `&`, then `<`, then `>` replaced by entities. */
  function SlackEscape(text: string): (r: string)
  {
    ReplaceChar(ReplaceChar(ReplaceChar(text, '&', "&amp;"), '<', "&lt;"), '>', "&gt;")
  }

  /** The entity a single character becomes. */
  function EscapeChar(c: char): string {
    if c == '&' then "&amp;" else if c == '<' then "&lt;" else if c == '>' then "&gt;" else [c]
  }

  /** Character-by-character escaping. */
  function EscapeEach(text: string): string {
    if text == [] then [] else EscapeChar(text[0]) + EscapeEach(text[1..])
  }

  lemma {:induction false} ReplaceCharOne(c: char, x: char, rep: string)
    ensures ReplaceChar([c], x, rep) == if c == x then rep else [c]
  {
    assert [c][1..] == [];
  }

  /** The three passes on a single character. */
  lemma {:induction false} SlackEscapeOneChar(c: char)
    ensures SlackEscape([c]) == EscapeChar(c)
  {
    ReplaceCharOne(c, '&', "&amp;");
    var s1 := ReplaceChar([c], '&', "&amp;");
    if c == '&' {
      ReplaceCharAbsent(s1, '<', "&lt;");
      ReplaceCharAbsent(s1, '>', "&gt;");
    } else {
      ReplaceCharOne(c, '<', "&lt;");
      var s2 := ReplaceChar(s1, '<', "&lt;");
      if c == '<' {
        ReplaceCharAbsent(s2, '>', "&gt;");
      } else {
        ReplaceCharOne(c, '>', "&gt;");
      }
    }
  }

  /** The three passes of `slack_escape` escape each character exactly once:
      the `&` of an entity made by a later pass is never escaped again. */
  lemma {:induction false} SlackEscapeEachChar(text: string)
    ensures SlackEscape(text) == EscapeEach(text)
  {
    if text != [] {
      var c := text[0];
      var rest := text[1..];
      assert text == [c] + rest;
      SlackEscapeEachChar(rest);
      SlackEscapeOneChar(c);
      ReplaceCharAppend([c], rest, '&', "&amp;");
      var a1, b1 := ReplaceChar([c], '&', "&amp;"), ReplaceChar(rest, '&', "&amp;");
      ReplaceCharAppend(a1, b1, '<', "&lt;");
      var a2, b2 := ReplaceChar(a1, '<', "&lt;"), ReplaceChar(b1, '<', "&lt;");
      ReplaceCharAppend(a2, b2, '>', "&gt;");
    }
  }

  /** The escaped text has no angle brackets left. */
  lemma {:induction false} EscapedHasNoBrackets(text: string)
    ensures '<' !in SlackEscape(text) && '>' !in SlackEscape(text)
  {
    SlackEscapeEachChar(text);
    EscapeEachNoBrackets(text);
  }

  lemma {:induction false} EscapeEachNoBrackets(text: string)
    ensures '<' !in EscapeEach(text) && '>' !in EscapeEach(text)
  {
    if text != [] { EscapeEachNoBrackets(text[1..]); }
  }

  /** Text without the three special characters is returned unchanged. */
  lemma {:induction false} SlackEscapePlain(text: string)
    requires !HasSpecial(text)
    ensures SlackEscape(text) == text
  {
    SlackEscapeEachChar(text);
    EscapeEachPlain(text);
  }

  lemma {:induction false} EscapeEachPlain(text: string)
    requires !HasSpecial(text)
    ensures EscapeEach(text) == text
  {
    if text != [] { EscapeEachPlain(text[1..]); }
  }

  /** Reading the three entities back as characters. */
  function Unescape(s: string): string
    decreases |s|
  {
    if s == [] then []
    else if StartsWith(s, "&amp;") then "&" + Unescape(s[5..])
    else if StartsWith(s, "&lt;") then "<" + Unescape(s[4..])
    else if StartsWith(s, "&gt;") then ">" + Unescape(s[4..])
    else [s[0]] + Unescape(s[1..])
  }

  /** Escaping loses nothing: the entities read back give the original. */
  lemma {:induction false} UnescapeSlackEscape(text: string)
    ensures Unescape(SlackEscape(text)) == text
  {
    SlackEscapeEachChar(text);
    UnescapeEscapeEach(text);
  }

  lemma {:induction false} UnescapeEscapeEach(text: string)
    ensures Unescape(EscapeEach(text)) == text
  {
    if text != [] {
      UnescapeEscapeEach(text[1..]);
      UnescapeOne(text[0], EscapeEach(text[1..]));
      assert text == [text[0]] + text[1..];
    }
  }

  /** One escaped character reads back as itself. */
  lemma {:induction false} UnescapeOne(c: char, tail: string)
    ensures Unescape(EscapeChar(c) + tail) == [c] + Unescape(tail)
  {
    if c == '&' {
      UnescapeEntity("&amp;", tail);
    } else if c == '<' {
      UnescapeEntity("&lt;", tail);
    } else if c == '>' {
      UnescapeEntity("&gt;", tail);
    } else {
      UnescapePlain(c, tail);
    }
  }

  lemma {:induction false} UnescapeEntity(e: string, tail: string)
    requires e == "&amp;" || e == "&lt;" || e == "&gt;"
    ensures Unescape(e + tail) == [if e == "&amp;" then '&' else if e == "&lt;" then '<' else '>'] + Unescape(tail)
  {
    var s := e + tail;
    assert s[..|e|] == e && s[|e|..] == tail;
    if e != "&amp;" {
      assert s[1] == e[1] && e[1] != "&amp;"[1];
    }
    if e == "&gt;" {
      assert s[1] == e[1] && e[1] != "&lt;"[1];
    }
  }

  lemma {:induction false} UnescapePlain(c: char, tail: string)
    requires c != '&'
    ensures Unescape([c] + tail) == [c] + Unescape(tail)
  {
    var s := [c] + tail;
    assert s[0] == c && s[1..] == tail;
    assert !StartsWith(s, "&amp;") && !StartsWith(s, "&lt;") && !StartsWith(s, "&gt;") by {
      assert forall p :: StartsWith(s, p) && p != [] ==> p[0] == c;
    }
  }

  predicate HasSpecial(text: string) {
    '&' in text || '<' in text || '>' in text
  }

  /** Each character becomes at least itself; a special one grows and leaves
      an `&` behind. */
  lemma {:induction false} EscapeEachGrows(text: string)
    ensures |EscapeEach(text)| >= |text|
    ensures HasSpecial(text) ==> |EscapeEach(text)| > |text| && '&' in EscapeEach(text)
  {
    if text != [] {
      EscapeEachGrows(text[1..]);
      assert text == [text[0]] + text[1..];
      var e := EscapeChar(text[0]);
      if HasSpecial([text[0]]) {
        assert e[0] == '&';
      }
    }
  }

  /** The texts `slack_escape` leaves unchanged are exactly those without
      `&`, `<` and `>`. */
  lemma {:induction false} SlackEscapeFixedPoints(text: string)
    ensures SlackEscape(text) == text <==> !HasSpecial(text)
  {
    SlackEscapeEachChar(text);
    EscapeEachGrows(text);
    if !HasSpecial(text) { EscapeEachPlain(text); }
  }

  /** Escaping twice is not escaping once: the `&` of an entity is escaped
      again. */
  lemma {:induction false} SlackEscapeNotIdempotent(text: string)
    requires HasSpecial(text)
    ensures SlackEscape(SlackEscape(text)) != SlackEscape(text)
  {
    SlackEscapeEachChar(text);
    EscapeEachGrows(text);
    SlackEscapeFixedPoints(SlackEscape(text));
  }

  // ---------------------------------------------------------------------
  // the fields of a format string: findall of \((.+?)\)

  /** With the group begun at position 1 and at least one character in it,
      the position of the `)` that closes it, scanning from `j`; a newline
      (which `.` does not match) ends the attempt. */
  function CloseParen(s: string, j: nat): (r: Option<nat>)
    ensures r.Some? ==> j <= r.value < |s| && s[r.value] == ')'
    decreases |s| - j
  {
    if j >= |s| then None
    else if s[j] == ')' then Some(j)
    else if s[j] == '\n' then None
    else CloseParen(s, j + 1)
  }

  /** `re.findall(r'\((.+?)\)', s)`: the shortest non-empty group after each
      `(`, up to the first `)` that can close it; the scan resumes after it. */
  function FormatFields(s: string): (r: seq<string>)
    ensures forall k :: 0 <= k < |r| ==> r[k] != []
    decreases |s|
  {
    if |s| < 3 then []
    else if s[0] == '(' && s[1] != '\n' then
      match CloseParen(s, 2)
      case Some(j) => [s[1..j]] + FormatFields(s[j + 1..])
      case None => FormatFields(s[1..])
    else FormatFields(s[1..])
  }

  /** A name without parentheses or newlines. */
  predicate PlainName(f: string) {
    f != [] && '(' !in f && ')' !in f && '\n' !in f
  }

  /** `%(name)s` placeholders, one after another. */
  function Placeholders(names: seq<string>): string {
    if names == [] then [] else "%(" + names[0] + ")s" + Placeholders(names[1..])
  }

  lemma {:induction false} CloseParenAfter(f: string, rest: string, j: nat)
    requires PlainName(f) && 2 <= j <= |f| + 1
    ensures CloseParen("(" + f + ")" + rest, j) == Some(|f| + 1)
    decreases |f| + 1 - j
  {
    var s := "(" + f + ")" + rest;
    assert s[|f| + 1] == ')';
    if j < |f| + 1 {
      assert s[j] == f[j - 1];
      CloseParenAfter(f, rest, j + 1);
    }
  }

  /** The names of a run of `%(name)s` placeholders are found again, in
      order: the pattern reads back what the format names. */
  lemma {:induction false} FormatFieldsOfPlaceholders(names: seq<string>)
    requires forall k :: 0 <= k < |names| ==> PlainName(names[k])
    ensures FormatFields(Placeholders(names)) == names
  {
    if names != [] {
      var f := names[0];
      var rest := Placeholders(names[1..]);
      var s := "%(" + f + ")s" + rest;
      assert s == Placeholders(names);
      var t := s[1..];
      assert t == "(" + f + ")" + ("s" + rest);
      assert FormatFields(s) == FormatFields(t);
      CloseParenAfter(f, "s" + rest, 2);
      assert t[1..|f| + 1] == f;
      assert t[|f| + 2..] == "s" + rest;
      FormatFieldsOfPlaceholders(names[1..]);
      assert FormatFields("s" + rest) == FormatFields(rest) by {
        if |"s" + rest| >= 3 { assert ("s" + rest)[1..] == rest; }
        else { assert |rest| < 2; assert FormatFields(rest) == []; }
      }
    }
  }

  // ---------------------------------------------------------------------
  // CustomLogFormatter.add_fields

  /** `record.__dict__` of a `logging.LogRecord`. */
  class LogRecord {
    var attrs: map<string, Value>

    constructor(attrs: map<string, Value>)
      ensures this.attrs == attrs
    {
      this.attrs := attrs;
    }
  }

  /** `d[f] = d.get(f)` for each field in turn. */
  function WithFields(attrs: map<string, Value>, fields: seq<string>): (r: map<string, Value>)
  {
    if fields == [] then attrs
    else
      var before := WithFields(attrs, fields[..|fields| - 1]);
      var f := fields[|fields| - 1];
      before[f := if f in before then before[f] else Null]
  }

  /** Every field becomes a key; values already present are kept; the new
      keys hold None. */
  lemma {:induction false} WithFieldsMeaning(attrs: map<string, Value>, fields: seq<string>)
    ensures forall key :: key in WithFields(attrs, fields) <==> key in attrs || key in fields
    ensures forall key :: key in attrs ==> WithFields(attrs, fields)[key] == attrs[key]
    ensures forall key :: key in WithFields(attrs, fields) && key !in attrs ==> WithFields(attrs, fields)[key] == Null
    decreases |fields|
  {
    if fields != [] {
      var init := fields[..|fields| - 1];
      WithFieldsMeaning(attrs, init);
      assert fields == init + [fields[|fields| - 1]];
    }
  }

  /** `CustomLogFormatter`; only its format string matters here. */
  class CustomLogFormatter {
    const fmt: string

    constructor(fmt: string)
      ensures this.fmt == fmt
    {
      this.fmt := fmt;
    }

    /** `add_fields(record)`: makes every field named by the format a key of
      the record and returns the same record. */
    method AddFields(record: LogRecord) returns (r: LogRecord)
      modifies record
      ensures r == record
      ensures record.attrs == WithFields(old(record.attrs), FormatFields(fmt))
    {
      var fields := FormatFields(fmt);
      var i := 0;
      while i < |fields|
        invariant 0 <= i <= |fields|
        invariant record.attrs == WithFields(old(record.attrs), fields[..i])
      {
        var f := fields[i];
        assert fields[..i + 1][..i] == fields[..i];
        record.attrs := record.attrs[f := if f in record.attrs then record.attrs[f] else Null];
        i := i + 1;
      }
      assert fields[..i] == fields;
      r := record;
    }
  }

  // ---------------------------------------------------------------------
  // JSONFormatter.process_log_record

  /** `rename_map`; its iteration order is that of a Python 2 dict, so the
      methods below take the pairs in any order. */
  const RenameMap: seq<(string, string)> :=
    [("asctime", "time"), ("request_id", "requestId"), ("app_name", "application")]

  /** `log_record[newkey] = log_record.pop(key)` for each pair in turn; the
      first missing key raises `KeyError` and leaves the earlier renames done. */
  function Renamed(entries: map<string, Value>, renames: seq<(string, string)>): (r: (map<string, Value>, Option<Exception>))
    decreases |renames|
  {
    if renames == [] then (entries, None)
    else
      var (key, newKey) := renames[0];
      if key !in entries then (entries, Some(KeyError(key)))
      else Renamed((entries - {key})[newKey := entries[key]], renames[1..])
  }

  /** Old names and new names are all different from each other, so no
      rename undoes or overwrites another. */
  predicate RenamesDisjoint(renames: seq<(string, string)>) {
    renames == []
    || (var (key, newKey) := renames[0];
        key != newKey
        && (forall p :: p in renames[1..] ==> p.0 != key && p.1 != newKey && p.0 != newKey && p.1 != key)
        && RenamesDisjoint(renames[1..]))
  }

  predicate IsOldName(renames: seq<(string, string)>, key: string) {
    exists p :: p in renames && p.0 == key
  }

  predicate IsNewName(renames: seq<(string, string)>, key: string) {
    exists p :: p in renames && p.1 == key
  }

  /** When every old name is present, each value moves to its new name,
      the old names are gone and every other key is untouched. */
  lemma {:induction false} RenamedAllPresent(entries: map<string, Value>, renames: seq<(string, string)>)
    requires RenamesDisjoint(renames)
    requires forall p :: p in renames ==> p.0 in entries
    ensures Renamed(entries, renames).1 == None
    ensures var r := Renamed(entries, renames).0;
            (forall p :: p in renames ==> p.1 in r && r[p.1] == entries[p.0])
            && (forall p :: p in renames ==> p.0 !in r)
            && (forall key :: key in entries && !IsOldName(renames, key) && !IsNewName(renames, key)
                  ==> key in r && r[key] == entries[key])
            && (forall key :: key in r ==> key in entries || IsNewName(renames, key))
    decreases |renames|
  {
    if renames != [] {
      var (key, newKey) := renames[0];
      var next := (entries - {key})[newKey := entries[key]];
      var tail := renames[1..];
      assert forall p :: p in renames <==> p == renames[0] || p in tail by {
        assert renames == [renames[0]] + tail;
      }
      RenamedAllPresent(next, tail);
      var r := Renamed(next, tail).0;
      assert Renamed(entries, renames).0 == r;
      assert !IsOldName(tail, newKey) && !IsNewName(tail, newKey);
      assert !IsOldName(tail, key) && !IsNewName(tail, key);
      forall p | p in renames ensures p.1 in r && r[p.1] == entries[p.0] {
        if p != renames[0] { assert p.0 in next && next[p.0] == entries[p.0]; }
      }
      forall p | p in renames ensures p.0 !in r {
      }
      forall k | k in entries && !IsOldName(renames, k) && !IsNewName(renames, k)
        ensures k in r && r[k] == entries[k]
      {
        assert k != key && k != newKey && !IsOldName(tail, k) && !IsNewName(tail, k);
      }
      forall k | k in r ensures k in entries || IsNewName(renames, k) {
        if !IsNewName(tail, k) { assert k in next; }
      }
    }
  }

  /** When some old name is missing, it is reported, in the order the pairs
      are taken: every earlier old name was present. */
  lemma {:induction false} RenamedMissing(entries: map<string, Value>, renames: seq<(string, string)>)
    requires RenamesDisjoint(renames)
    ensures Renamed(entries, renames).1.Some? <==> exists p :: p in renames && p.0 !in entries
    ensures Renamed(entries, renames).1.Some? ==>
              exists i :: 0 <= i < |renames| && renames[i].0 !in entries
                && Renamed(entries, renames).1 == Some(KeyError(renames[i].0))
                && forall j :: 0 <= j < i ==> renames[j].0 in entries
  {
    if Renamed(entries, renames).1.Some? {
      var i := RenamedFirstMissing(entries, renames);
      assert renames[i] in renames;
    } else {
      RenamedNonePresent(entries, renames);
      forall p | p in renames ensures p.0 in entries {
        var k :| 0 <= k < |renames| && renames[k] == p;
      }
    }
  }

  /** The rename that fails is the first one whose old name is missing. */
  lemma {:induction false} RenamedFirstMissing(entries: map<string, Value>, renames: seq<(string, string)>) returns (i: nat)
    requires RenamesDisjoint(renames)
    requires Renamed(entries, renames).1.Some?
    ensures i < |renames| && renames[i].0 !in entries
    ensures Renamed(entries, renames).1 == Some(KeyError(renames[i].0))
    ensures forall j :: 0 <= j < i ==> renames[j].0 in entries
    decreases |renames|
  {
    var (key, newKey) := renames[0];
    var tail := renames[1..];
    if key in entries {
      var next := (entries - {key})[newKey := entries[key]];
      assert Renamed(entries, renames) == Renamed(next, tail);
      var t := RenamedFirstMissing(next, tail);
      assert tail[t] in renames[1..];
      i := t + 1;
      assert renames[i] == tail[t];
      forall j | 0 <= j < i ensures renames[j].0 in entries {
        if j > 0 {
          assert renames[j] == tail[j - 1] && tail[j - 1] in renames[1..];
        }
      }
    } else {
      i := 0;
    }
  }

  /** A run of renames that raises nothing found every old name. */
  lemma {:induction false} RenamedNonePresent(entries: map<string, Value>, renames: seq<(string, string)>)
    requires RenamesDisjoint(renames)
    requires Renamed(entries, renames).1 == None
    ensures forall i :: 0 <= i < |renames| ==> renames[i].0 in entries
    decreases |renames|
  {
    if renames != [] {
      var (key, newKey) := renames[0];
      var tail := renames[1..];
      var next := (entries - {key})[newKey := entries[key]];
      assert Renamed(entries, renames) == Renamed(next, tail);
      RenamedNonePresent(next, tail);
      forall i | 0 < i < |renames| ensures renames[i].0 in entries {
        assert renames[i] == tail[i - 1] && tail[i - 1] in renames[1..];
      }
    }
  }

  /** The dictionary `process_log_record` rewrites in place. */
  class LogFields {
    var entries: map<string, Value>

    constructor(entries: map<string, Value>)
      ensures this.entries == entries
    {
      this.entries := entries;
    }
  }

  /** What `process_log_record` leaves in the dictionary and what it raises:
      the renames, then `logType`, then the message formatted with the
      record's own fields by `format` (`str.format`), where a `KeyError` is
      caught and ignored and any other exception escapes. */
  function Processed(entries: map<string, Value>, renames: seq<(string, string)>,
                     format: (string, map<string, Value>) -> Result<string>): (r: (map<string, Value>, Option<Exception>))
  {
    var (renamed, missing) := Renamed(entries, renames);
    if missing.Some? then (renamed, missing)
    else
      var typed := renamed["logType" := Str("application")];
      if "message" !in typed then (typed, None)
      else
        match typed["message"]
        case Str(m) =>
          (match format(m, typed)
           case Ok(text) => (typed["message" := Str(text)], None)
           case Raise(e) => if e.KeyError? then (typed, None) else (typed, Some(e)))
        case _ => (typed, Some(AttributeError("format")))
  }

  /** With `asctime`, `request_id` and `app_name` present, whatever the
      order of `rename_map`, their values move to `time`, `requestId` and
      `application`, and `logType` is `application`; only the message
      formatting can then raise, and never `KeyError`. */
  lemma {:induction false} ProcessedAllPresent(entries: map<string, Value>, renames: seq<(string, string)>,
                            format: (string, map<string, Value>) -> Result<string>)
    requires multiset(renames) == multiset(RenameMap)
    requires "asctime" in entries && "request_id" in entries && "app_name" in entries
    ensures var (r, raised) := Processed(entries, renames, format);
            "time" in r && r["time"] == entries["asctime"]
            && "requestId" in r && r["requestId"] == entries["request_id"]
            && "application" in r && r["application"] == entries["app_name"]
            && "asctime" !in r && "request_id" !in r && "app_name" !in r
            && "logType" in r && r["logType"] == Str("application")
            && (raised.Some? ==> !raised.value.KeyError?)
  {
    RenameMapDisjoint(renames);
    assert forall p :: p in renames <==> p in multiset(RenameMap);
    assert ("asctime", "time") in renames;
    assert ("request_id", "requestId") in renames;
    assert ("app_name", "application") in renames;
    assert forall p :: p in renames ==> p.0 in entries;
    assert "asctime"[0] != "logType"[0];
    ProcessedMoves(entries, renames, format, "asctime", "time");
    ProcessedMoves(entries, renames, format, "request_id", "requestId");
    ProcessedMoves(entries, renames, format, "app_name", "application");
    ProcessedAfterRenames(entries, renames, format);
  }

  /** One pair of a rename map whose old names are all present: the value
      moves to the new name and the old name is gone. */
  lemma {:induction false} ProcessedMoves(entries: map<string, Value>, renames: seq<(string, string)>,
                       format: (string, map<string, Value>) -> Result<string>, key: string, newKey: string)
    requires RenamesDisjoint(renames) && forall p :: p in renames ==> p.0 in entries
    requires (key, newKey) in renames
    requires key != "logType" && newKey != "logType" && newKey != "message"
    ensures Renamed(entries, renames).1 == None
    ensures var r := Processed(entries, renames, format).0;
            newKey in r && r[newKey] == entries[key] && key !in r
  {
    RenamedAllPresent(entries, renames);
    ProcessedAfterRenames(entries, renames, format);
  }

  /** Once the renames succeed, the rest of `process_log_record` touches only
      `logType` and `message`, and cannot raise `KeyError`. */
  lemma {:induction false} ProcessedAfterRenames(entries: map<string, Value>, renames: seq<(string, string)>,
                              format: (string, map<string, Value>) -> Result<string>)
    requires Renamed(entries, renames).1 == None
    ensures var renamed := Renamed(entries, renames).0;
            var (r, raised) := Processed(entries, renames, format);
            r.Keys == renamed.Keys + {"logType"}
            && r["logType"] == Str("application")
            && (forall key :: key in renamed && key != "logType" && key != "message" ==> r[key] == renamed[key])
            && (raised.Some? ==> !raised.value.KeyError?)
  {
  }

  /** Without one of `asctime`, `request_id` and `app_name`, whatever the
      order of `rename_map`, `KeyError` is raised. */
  lemma {:induction false} ProcessedMissing(entries: map<string, Value>, renames: seq<(string, string)>,
                         format: (string, map<string, Value>) -> Result<string>)
    requires multiset(renames) == multiset(RenameMap)
    requires !("asctime" in entries && "request_id" in entries && "app_name" in entries)
    ensures var raised := Processed(entries, renames, format).1;
            raised.Some? && raised.value.KeyError?
  {
    RenameMapDisjoint(renames);
    RenamedMissing(entries, renames);
    assert forall p :: p in renames <==> p in multiset(RenameMap);
    assert exists p :: p in renames && p.0 !in entries by {
      if "asctime" !in entries { assert ("asctime", "time") in renames; }
      else if "request_id" !in entries { assert ("request_id", "requestId") in renames; }
      else { assert ("app_name", "application") in renames; }
    }
    var i :| 0 <= i < |renames| && renames[i].0 !in entries
              && Renamed(entries, renames).1 == Some(KeyError(renames[i].0))
              && forall j :: 0 <= j < i ==> renames[j].0 in entries;
  }

  /** `JSONFormatter.process_log_record(log_record)`, with the pairs of
      `rename_map` in the dictionary's iteration order. */
  method ProcessLogRecord(logRecord: LogFields, renames: seq<(string, string)>,
                          format: (string, map<string, Value>) -> Result<string>)
    returns (raised: Option<Exception>)
    requires multiset(renames) == multiset(RenameMap)
    modifies logRecord
    ensures (logRecord.entries, raised) == Processed(old(logRecord.entries), renames, format)
  {
    var i := 0;
    while i < |renames|
      invariant 0 <= i <= |renames|
      invariant Renamed(old(logRecord.entries), renames) == Renamed(logRecord.entries, renames[i..])
    {
      var (key, newKey) := renames[i];
      assert renames[i..][0] == renames[i] && renames[i..][1..] == renames[i + 1..];
      if key !in logRecord.entries {
        return Some(KeyError(key));
      }
      var value := logRecord.entries[key];
      logRecord.entries := logRecord.entries - {key};
      logRecord.entries := logRecord.entries[newKey := value];
      i := i + 1;
    }
    logRecord.entries := logRecord.entries["logType" := Str("application")];
    raised := None;
    if "message" in logRecord.entries {
      var message := logRecord.entries["message"];
      if !message.Str? {
        return Some(AttributeError("format"));
      }
      var formatted := format(message.s, logRecord.entries);
      if formatted.Ok? {
        logRecord.entries := logRecord.entries["message" := Str(formatted.value)];
      } else if !formatted.error.KeyError? {
        raised := Some(formatted.error);
      }
    }
  }

  /** Any pairs taken from `rename_map`, each at most once and in any
      order, meet the condition of the lemmas above. */
  lemma {:induction false} RenameMapDisjoint(renames: seq<(string, string)>)
    requires multiset(renames) <= multiset(RenameMap)
    ensures RenamesDisjoint(renames)
    decreases |renames|
  {
    if renames != [] {
      var tail := renames[1..];
      assert renames == [renames[0]] + tail;
      assert multiset(renames) == multiset{renames[0]} + multiset(tail);
      RenameMapDisjoint(tail);
      var x := renames[0];
      assert x in multiset(renames);
      assert x in RenameMap;
      assert multiset(RenameMap)[x] == 1;
      assert x !in multiset(tail);
      forall p | p in tail
        ensures p.0 != x.0 && p.1 != x.1 && p.0 != x.1 && p.1 != x.0
      {
        assert p in multiset(tail);
        RenameMapNamesDiffer(x, p);
      }
    }
  }

  /** Two different pairs of `rename_map` share no name. */
  lemma {:induction false} RenameMapNamesDiffer(x: (string, string), p: (string, string))
    requires x in RenameMap && p in RenameMap && x != p
    ensures p.0 != x.0 && p.1 != x.1 && p.0 != x.1 && p.1 != x.0
  {
    assert "asctime"[1] == 's' && "app_name"[1] == 'p' && "application"[1] == 'p';
    assert "time"[0] == 't' && "request_id"[0] == 'r' && "requestId"[0] == 'r';
    assert "app_name"[3] == '_' && "application"[3] == 'l';
    assert "request_id"[7] == '_' && "requestId"[7] == 'I';
  }
}
