/** `dmutils/documents.py`: checks on uploaded document files, the storage
    path a document is saved under, and saving it through an uploader.
    The same `generate_file_name` and `get_extension` appear, word for word,
    in `dmutils/validation.py`; they are defined here once. */
module Documents {

  import opened Results
  import opened Text
  import opened Values
  import opened Bytes

  // ---------------------------------------------------------------------
  // uploaded files

  /** An uploaded file: a name, its bytes and a read position. */
  class FileHandle {
    const filename: string
    const content: seq<byte>
    var pos: nat

    constructor(filename: string, content: seq<byte>)
      ensures this.filename == filename && this.content == content && pos == 0
    {
      this.filename := filename;
      this.content := content;
      pos := 0;
    }

    /** The number of bytes left to read from position `p`. */
    function Available(p: nat): nat {
      if p >= |content| then 0 else |content| - p
    }

    /** `read(n)`: up to `n` bytes from the position, which moves past them. */
    method Read(n: nat) returns (chunk: seq<byte>)
      modifies this
      ensures |chunk| == Min(n, Available(old(pos)))
      ensures chunk == [] || chunk == content[old(pos)..old(pos) + |chunk|]
      ensures pos == old(pos) + |chunk|
    {
      var size := Min(n, Available(pos));
      chunk := if size == 0 then [] else content[pos..pos + size];
      pos := pos + size;
    }

    /** `seek(offset)`. */
    method Seek(offset: nat)
      modifies this
      ensures pos == offset
    {
      pos := offset;
    }
  }

  function Min(a: nat, b: nat): nat {
    if a < b then a else b
  }

  /** `file_is_not_empty(file_contents)`: one byte can be read; the position
      is put back at the start. */
  method FileIsNotEmpty(file: FileHandle) returns (notEmpty: bool)
    modifies file
    ensures notEmpty <==> file.Available(old(file.pos)) > 0
    ensures file.pos == 0
  {
    var chunk := file.Read(1);
    notEmpty := |chunk| > 0;
    file.Seek(0);
  }

  const SizeLimit := 5400000

  /** `file_is_less_than_5mb(file_contents)`: fewer than 5,400,000 bytes can
      be read; the position is put back at the start. */
  method FileIsLessThan5mb(file: FileHandle) returns (belowSizeLimit: bool)
    modifies file
    ensures belowSizeLimit <==> file.Available(old(file.pos)) < SizeLimit
    ensures file.pos == 0
  {
    var chunk := file.Read(SizeLimit);
    belowSizeLimit := |chunk| < SizeLimit;
    file.Seek(0);
  }

  // ---------------------------------------------------------------------
  // file extensions

  /** `os.path.splitext(p)` on POSIX paths, read from the last character:
      a `/` ends the path without an extension; a final `.` is the
      extension when the last path component holds a character other than
      `.` before it; any other character extends the extension of the rest,
      if it has one.  `SplitExtAtLastDot` is the same function as Python
      writes it, and `SplitExtIsAtLastDot` shows that the two agree. */
  function SplitExt(p: string): (string, string)
    decreases |p|
  {
    if p == [] then ([], [])
    else
      var q := p[..|p| - 1];
      if p[|p| - 1] == '/' then (p, [])
      else if p[|p| - 1] == '.' then (if NamedComponent(q) then (q, ".") else (p, []))
      else
        var (root, ext) := SplitExt(q);
        if ext == [] then (p, []) else (root, ext + [p[|p| - 1]])
  }

  /** The last component of a path holds a character other than `.`. */
  predicate NamedComponent(root: string)
    decreases |root|
  {
    root != [] && root[|root| - 1] != '/' && (root[|root| - 1] != '.' || NamedComponent(root[..|root| - 1]))
  }

  /** Where the last path component of `p` starts. */
  function ComponentStart(p: string): nat {
    match LastIndexOf(p, '/') case None => 0 case Some(slash) => slash + 1
  }

  /** `posixpath.splitext(p)`: the last `.` after the last `/` starts the
      extension, unless only dots precede it in that component. */
  function SplitExtAtLastDot(p: string): (string, string) {
    match LastIndexOf(p, '.')
    case None => (p, [])
    case Some(dot) =>
      if ComponentStart(p) <= dot && exists i :: ComponentStart(p) <= i < dot && p[i] != '.' then (p[..dot], p[dot..])
      else (p, [])
  }

  /** A component is named exactly when it holds a character other than `.`. */
  lemma {:induction false} NamedComponentMeaning(root: string)
    ensures NamedComponent(root) <==> exists i :: ComponentStart(root) <= i < |root| && root[i] != '.'
    decreases |root|
  {
    if root != [] {
      var q := root[..|root| - 1];
      assert q + [root[|root| - 1]] == root;
      if root[|root| - 1] == '/' {
        assert LastIndexOf(root, '/') == Some(|root| - 1);
      } else {
        assert LastIndexOf(root, '/') == LastIndexOf(q, '/');
        NamedComponentMeaning(q);
        if root[|root| - 1] == '.' {
          if exists i :: ComponentStart(root) <= i < |root| && root[i] != '.' {
            var i :| ComponentStart(root) <= i < |root| && root[i] != '.';
            assert q[i] == root[i];
          }
          if exists i :: ComponentStart(q) <= i < |q| && q[i] != '.' {
            var i :| ComponentStart(q) <= i < |q| && q[i] != '.';
            assert root[i] == q[i];
          }
        } else {
          if NamedComponent(q) {
            var i :| ComponentStart(q) <= i < |q| && q[i] != '.';
            assert root[i] == q[i];
          }
        }
      }
    }
  }

  /** The recursive definition is Python's. */
  lemma {:induction false} SplitExtIsAtLastDot(p: string)
    ensures SplitExt(p) == SplitExtAtLastDot(p)
    decreases |p|
  {
    if p != [] {
      var c := p[|p| - 1];
      if c == '/' {
        assert LastIndexOf(p, '/') == Some(|p| - 1);
      } else if c == '.' {
        AtLastDotOfDot(p);
      } else {
        SplitExtIsAtLastDot(p[..|p| - 1]);
        AtLastDotOfOther(p);
      }
    }
  }

  /** A path ending in `.`. */
  lemma {:induction false} AtLastDotOfDot(p: string)
    requires p != [] && p[|p| - 1] == '.'
    ensures SplitExt(p) == SplitExtAtLastDot(p)
  {
    var q := p[..|p| - 1];
    assert q + ['.'] == p;
    AtLastDotDotted(q);
  }

  /** `AtLastDotOfDot` for the path `q` followed by a dot. */
  lemma {:induction false} AtLastDotDotted(q: string)
    ensures SplitExt(q + ['.']) == SplitExtAtLastDot(q + ['.'])
  {
    var p := q + ['.'];
    assert p[..|p| - 1] == q;
    assert LastIndexOf(p, '/') == LastIndexOf(q, '/');
    assert LastIndexOf(p, '.') == Some(|q|);
    var start := ComponentStart(q);
    assert ComponentStart(p) == start;
    NamedComponentMeaning(q);
    assert (exists i :: start <= i < |q| && p[i] != '.') <==> (exists i :: start <= i < |q| && q[i] != '.') by {
      assert forall i :: 0 <= i < |q| ==> p[i] == q[i];
    }
    assert p[|q|..] == ".";
  }

  /** A path ending in neither `.` nor `/`, whose shorter path agrees. */
  lemma {:induction false} AtLastDotOfOther(p: string)
    requires p != [] && p[|p| - 1] != '.' && p[|p| - 1] != '/'
    requires SplitExt(p[..|p| - 1]) == SplitExtAtLastDot(p[..|p| - 1])
    ensures SplitExt(p) == SplitExtAtLastDot(p)
  {
    var q := p[..|p| - 1];
    var c := p[|p| - 1];
    assert q + [c] == p;
    AtLastDotExtended(q, c);
  }

  /** `AtLastDotOfOther` for the path `q` followed by `c`. */
  lemma {:induction false} AtLastDotExtended(q: string, c: char)
    requires c != '.' && c != '/'
    requires SplitExt(q) == SplitExtAtLastDot(q)
    ensures SplitExt(q + [c]) == SplitExtAtLastDot(q + [c])
  {
    var p := q + [c];
    assert p[..|p| - 1] == q;
    assert LastIndexOf(p, '/') == LastIndexOf(q, '/');
    assert LastIndexOf(p, '.') == LastIndexOf(q, '.');
    match LastIndexOf(q, '.')
    case None =>
    case Some(dot) =>
      var start := ComponentStart(q);
      var named := start <= dot && exists i :: start <= i < dot && q[i] != '.';
      assert SplitExtAtLastDot(q) == if named then (q[..dot], q[dot..]) else (q, []);
      assert SplitExtAtLastDot(p) == if named then (p[..dot], p[dot..]) else (p, []) by {
        assert ComponentStart(p) == start;
        assert forall i :: 0 <= i < |q| ==> p[i] == q[i];
      }
      if named {
        SnocSlices(q, c, dot);
      }
  }

  lemma {:induction false} SnocSlices(q: string, c: char, k: nat)
    requires k <= |q|
    ensures (q + [c])[..k] == q[..k] && (q + [c])[k..] == q[k..] + [c]
  {
  }

  /** The two parts make up the path, and an extension is a dot followed
      by neither a dot nor a `/`. */
  lemma {:induction false} SplitExtShape(p: string)
    ensures SplitExt(p).0 + SplitExt(p).1 == p
    ensures var ext := SplitExt(p).1; ext == [] || (ext[0] == '.' && '.' !in ext[1..] && '/' !in ext)
    decreases |p|
  {
    if p != [] {
      var q := p[..|p| - 1];
      var c := p[|p| - 1];
      assert q + [c] == p;
      if c != '/' && c != '.' {
        SplitExtShape(q);
        var (root, ext) := SplitExt(q);
        if ext != [] {
          assert root + (ext + [c]) == p;
          assert (ext + [c])[1..] == ext[1..] + [c];
        }
      }
    }
  }

  /** A well-formed extension appended to a named path is split off again. */
  lemma {:induction false} SplitExtJoin(root: string, ext: string)
    requires NamedComponent(root)
    requires |ext| >= 1 && ext[0] == '.' && '.' !in ext[1..] && '/' !in ext
    ensures SplitExt(root + ext) == (root, ext)
    decreases |ext|
  {
    var p := root + ext;
    if |ext| == 1 {
      assert ext == ".";
      assert p[..|p| - 1] == root;
    } else {
      var init := ext[..|ext| - 1];
      assert init[1..] == ext[1..][..|ext| - 2];
      SplitExtJoin(root, init);
      assert p[..|p| - 1] == root + init;
      assert ext[|ext| - 1] == ext[1..][|ext| - 2];
      assert init + [ext[|ext| - 1]] == ext;
    }
  }

  /** `get_extension(filename)`: the extension, lower-cased. */
  function GetExtension(filename: string): string {
    Lower(SplitExt(filename).1)
  }

  /** An extension is empty or a dot followed by neither a dot nor a `/`. */
  lemma {:induction false} ExtensionShape(filename: string)
    ensures var r := GetExtension(filename); r == [] || (r[0] == '.' && '.' !in r[1..] && '/' !in r)
  {
    SplitExtShape(filename);
    var ext := SplitExt(filename).1;
    var r := Lower(ext);
    forall k | 0 <= k < |r|
      ensures (r[k] == '.' <==> ext[k] == '.') && (r[k] == '/' <==> ext[k] == '/')
    {
      LowerCharIntoAscii(ext[k]);
    }
    assert r != [] ==> '.' !in r[1..] by {
      forall k | 1 <= k < |r|
        ensures r[k] != '.'
      {
        assert ext[k] == ext[1..][k - 1];
      }
    }
  }

  lemma {:induction false} LowerIdempotent(s: string)
    ensures Lower(Lower(s)) == Lower(s)
  {
    var l := Lower(s);
    forall k | 0 <= k < |s|
      ensures LowerChar(l[k]) == l[k]
    {
      LowerCharIdempotent(s[k]);
    }
  }

  const OpenDocumentExtensions: seq<string> := [".pdf", ".pda", ".odt", ".ods", ".odp"]

  /** `file_is_open_document_format(file_object)`. */
  predicate FileIsOpenDocumentFormat(file: FileHandle) {
    GetExtension(file.filename) in OpenDocumentExtensions
  }

  /** `s in names`. */
  predicate Listed(s: string, names: seq<string>)
    ensures Listed(s, names) <==> s in names
  {
    names != [] && (s == names[0] || Listed(s, names[1..]))
  }

  /** The extension of a name `base.ext` is `.ext` lower-cased, so the
      format check ignores case. */
  lemma {:induction false} GetExtensionOfName(root: string, ext: string)
    requires NamedComponent(root)
    requires |ext| >= 1 && ext[0] == '.' && '.' !in ext[1..] && '/' !in ext
    ensures GetExtension(root + ext) == Lower(ext)
  {
    SplitExtJoin(root, ext);
  }

  /** Lower-casing is Unicode's: the extension of `doc.\u0130` is `.i`. */
  lemma {:induction false} GetExtensionDottedCapitalI()
    ensures GetExtension("doc.\U{130}") == ".i"
  {
    assert NamedComponent("doc");
    GetExtensionOfName("doc", ".\U{130}");
    LowerCharExamples();
    assert "doc" + ".\U{130}" == "doc.\U{130}";
    var l := Lower(".\U{130}");
    assert l[0] == '.' && l[1] == 'i';
  }

  // ---------------------------------------------------------------------
  // storage paths

  /** `ID_TO_FILE_NAME_SUFFIX`. */
  const IdToFileNameSuffix: map<string, string> := map[
    "serviceDefinitionDocumentURL" := "service-definition-document",
    "termsAndConditionsDocumentURL" := "terms-and-conditions",
    "sfiaRateDocumentURL" := "sfia-rate-card",
    "pricingDocumentURL" := "pricing-document"]

  /** `generate_file_name(supplier_id, service_id, field, filename, suffix)`:
      `documents/{supplier}/{service}-{kind}-{suffix}{extension}`.  A field
      without a kind raises `KeyError`; the parts are put into a byte-string
      template, so text outside ASCII raises `UnicodeEncodeError`, and
      `repr` renders lists and dictionaries.  The default suffix is the
      current time, so the suffix is always given here. */
  function GenerateFileName(supplierId: Value, serviceId: Value, field: string, filename: string,
                            suffix: string, repr: Value -> string): (r: Result<string>)
    ensures r == Raise(KeyError(field)) <==> field !in IdToFileNameSuffix
    ensures r.Raise? <==> field !in IdToFileNameSuffix || PyStr(supplierId, repr).Raise?
                          || PyStr(serviceId, repr).Raise? || !IsAscii(suffix) || !IsAscii(GetExtension(filename))
  {
    if field !in IdToFileNameSuffix then Raise(KeyError(field))
    else
      var supplier :- PyStr(supplierId, repr);
      var service :- PyStr(serviceId, repr);
      var sfx :- PyStr(Str(suffix), repr);
      var ext :- PyStr(Str(GetExtension(filename)), repr);
      Ok("documents/" + supplier + "/" + service + "-" + IdToFileNameSuffix[field] + "-" + sfx + ext)
  }

  /** The kinds of document hold no `.` and no `/`. */
  lemma {:induction false} KindsArePlain(field: string)
    requires field in IdToFileNameSuffix
    ensures '.' !in IdToFileNameSuffix[field] && '/' !in IdToFileNameSuffix[field]
  {
    var kind := IdToFileNameSuffix[field];
    assert kind == "service-definition-document" || kind == "terms-and-conditions"
           || kind == "sfia-rate-card" || kind == "pricing-document";
  }

  /** The saved path is made of the rendered ids, the kind, the suffix and
      the extension. */
  lemma {:induction false} GeneratedPath(supplierId: Value, serviceId: Value, field: string, filename: string,
                      suffix: string, repr: Value -> string)
    requires GenerateFileName(supplierId, serviceId, field, filename, suffix, repr).Ok?
    ensures GenerateFileName(supplierId, serviceId, field, filename, suffix, repr).value
            == "documents/" + PyStr(supplierId, repr).value + "/"
               + (PyStr(serviceId, repr).value + "-" + IdToFileNameSuffix[field] + "-" + suffix)
               + GetExtension(filename)
  {
    var supplier := PyStr(supplierId, repr).value;
    var service := PyStr(serviceId, repr).value;
    var kind := IdToFileNameSuffix[field];
    var ext := GetExtension(filename);
    assert PyStr(Str(suffix), repr) == Ok(suffix);
    assert PyStr(Str(ext), repr) == Ok(ext);
    Regrouped("documents/" + supplier + "/", service, "-", kind, suffix);
  }

  lemma {:induction false} Regrouped(head: string, a: string, dash: string, b: string, c: string)
    ensures head + a + dash + b + dash + c == head + (a + dash + b + dash + c)
  {
  }

  /** The last path component of `a/b`, when `b` holds no `/`, is `b`. */
  lemma {:induction false} NamedAfterSlash(a: string, b: string, i: nat)
    requires '/' !in b && i < |b| && b[i] != '.'
    ensures NamedComponent(a + ['/'] + b)
    decreases |b|
  {
    var p := a + ['/'] + b;
    assert p[|p| - 1] == b[|b| - 1];
    if b[|b| - 1] == '.' {
      var init := b[..|b| - 1];
      assert init[i] == b[i];
      NamedAfterSlash(a, init, i);
      assert p[..|p| - 1] == a + ['/'] + init;
    }
  }

  /** `a/b` has no extension when `b` holds neither `/` nor `.`. */
  lemma {:induction false} NoExtensionAfterSlash(a: string, b: string)
    requires '/' !in b && '.' !in b
    ensures SplitExt(a + ['/'] + b).1 == []
    decreases |b|
  {
    var p := a + ['/'] + b;
    if b != [] {
      var init := b[..|b| - 1];
      assert p[|p| - 1] == b[|b| - 1];
      NoExtensionAfterSlash(a, init);
      assert p[..|p| - 1] == a + ['/'] + init;
    }
  }

  /** The stored document keeps the extension of the uploaded file, when the
      rendered service id and the suffix hold no `.` or `/`. */
  lemma {:induction false} GeneratedExtension(supplierId: Value, serviceId: Value, field: string, filename: string,
                           suffix: string, repr: Value -> string)
    requires GenerateFileName(supplierId, serviceId, field, filename, suffix, repr).Ok?
    requires var service := PyStr(serviceId, repr).value; '.' !in service && '/' !in service
    requires '.' !in suffix && '/' !in suffix
    ensures GetExtension(GenerateFileName(supplierId, serviceId, field, filename, suffix, repr).value)
            == GetExtension(filename)
  {
    GeneratedPath(supplierId, serviceId, field, filename, suffix, repr);
    KindsArePlain(field);
    var service := PyStr(serviceId, repr).value;
    var head := "documents/" + PyStr(supplierId, repr).value;
    var tail := service + "-" + IdToFileNameSuffix[field] + "-" + suffix;
    var root := head + ['/'] + tail;
    var ext := GetExtension(filename);
    ExtensionShape(filename);
    assert GenerateFileName(supplierId, serviceId, field, filename, suffix, repr).value == root + ext;
    assert tail[|service|] == '-';
    NamedAfterSlash(head, tail, |service|);
    if ext == [] {
      NoExtensionAfterSlash(head, tail);
      assert root + ext == root;
    } else {
      SplitExtJoin(root, ext);
      LowerIdempotent(SplitExt(filename).1);
    }
  }

  // ---------------------------------------------------------------------
  // the checks over all attached files

  /** The read positions of the attached files. */
  function Positions(files: seq<(string, FileHandle)>): (r: seq<nat>)
    reads FileHandles(files)
    ensures |r| == |files| && forall k :: 0 <= k < |files| ==> r[k] == files[k].1.pos
  {
    if files == [] then [] else [files[0].1.pos] + Positions(files[1..])
  }

  predicate DistinctFields(files: seq<(string, FileHandle)>) {
    forall i, j :: 0 <= i < j < |files| ==> files[i].0 != files[j].0
  }

  /** The file objects of the entries. */
  function FileHandles(files: seq<(string, FileHandle)>): (r: set<FileHandle>)
    ensures forall k :: 0 <= k < |files| ==> files[k].1 in r
  {
    if files == [] then {} else {files[0].1} + FileHandles(files[1..])
  }

  predicate DistinctHandles(files: seq<(string, FileHandle)>) {
    forall i, j :: 0 <= i < j < |files| ==> files[i].1 != files[j].1
  }

  /** The error `validate_documents` records for one file, if any: the
      format is checked before the size. */
  function DocumentError(file: FileHandle, pos: nat): Option<string>
  {
    if !FileIsOpenDocumentFormat(file) then Some(FormatError)
    else if file.Available(pos) >= SizeLimit then Some("file_is_less_than_5mb")
    else None
  }

  /** The errors a per-file `check` records for the first `n` files, read
      from the given positions, keyed by field. */
  function CheckedErrors(check: (FileHandle, nat) -> Option<string>, files: seq<(string, FileHandle)>,
                         positions: seq<nat>, n: nat): map<string, string>
    requires n <= |files| == |positions|
  {
    if n == 0 then map[]
    else
      var before := CheckedErrors(check, files, positions, n - 1);
      match check(files[n - 1].1, positions[n - 1])
      case Some(name) => before[files[n - 1].0 := name]
      case None => before
  }

  /** A field is recorded exactly when its file fails the check, with that
      error, and every recorded field is one of the files'. */
  lemma {:induction false} CheckedErrorsMeaning(check: (FileHandle, nat) -> Option<string>, files: seq<(string, FileHandle)>,
                                                 positions: seq<nat>, n: nat)
    requires n <= |files| == |positions| && DistinctFields(files)
    ensures forall k :: 0 <= k < n ==>
              (files[k].0 in CheckedErrors(check, files, positions, n) <==> check(files[k].1, positions[k]).Some?)
    ensures forall k :: 0 <= k < n && files[k].0 in CheckedErrors(check, files, positions, n) ==>
              CheckedErrors(check, files, positions, n)[files[k].0] == check(files[k].1, positions[k]).value
    ensures forall field :: field in CheckedErrors(check, files, positions, n) ==> exists k :: 0 <= k < n && files[k].0 == field
  {
    if n > 0 {
      CheckedErrorsMeaning(check, files, positions, n - 1);
    }
  }

  /** The errors `validate_documents` records for the first `n` files. */
  function DocumentErrors(files: seq<(string, FileHandle)>, positions: seq<nat>, n: nat): map<string, string>
    requires n <= |files| == |positions|
  {
    CheckedErrors(DocumentError, files, positions, n)
  }

  /** A file has an error exactly when it fails a check, and the error names
      the first check it fails; every error is for an attached file. */
  lemma {:induction false} DocumentErrorsMeaning(files: seq<(string, FileHandle)>, positions: seq<nat>)
    requires |files| == |positions| && DistinctFields(files)
    ensures var errors := DocumentErrors(files, positions, |files|);
            (forall k :: 0 <= k < |files| ==>
               (files[k].0 in errors <==> DocumentError(files[k].1, positions[k]).Some?))
            && (forall k :: 0 <= k < |files| && files[k].0 in errors ==>
                  errors[files[k].0] == DocumentError(files[k].1, positions[k]).value)
            && (forall field :: field in errors ==> exists k :: 0 <= k < |files| && files[k].0 == field)
  {
    CheckedErrorsMeaning(DocumentError, files, positions, |files|);
  }

  /** One more file adds its error, if it has one. */
  lemma {:induction false} DocumentErrorsStep(files: seq<(string, FileHandle)>, positions: seq<nat>, n: nat, error: Option<string>)
    requires n < |files| == |positions| && error == DocumentError(files[n].1, positions[n])
    ensures DocumentErrors(files, positions, n + 1)
            == if error.Some? then DocumentErrors(files, positions, n)[files[n].0 := error.value]
               else DocumentErrors(files, positions, n)
  {
  }

  const FormatError := "file_is_open_document_format"

  /** The checks of `validate_documents` on one file; only the size check
      reads, and it puts the position back at the start. */
  method CheckDocument(file: FileHandle) returns (error: Option<string>)
    modifies file
    ensures error == DocumentError(file, old(file.pos))
    ensures file.pos == if error == Some(FormatError) then old(file.pos) else 0
  {
    if !FileIsOpenDocumentFormat(file) {
      error := Some(FormatError);
    } else {
      var small := FileIsLessThan5mb(file);
      error := if small then None else Some("file_is_less_than_5mb");
    }
  }

  /** Whether the entry's field was recorded with the format error. */
  predicate FormatRefused(errors: map<string, string>, field: string) {
    field in errors && errors[field] == FormatError
  }

  /** `validate_documents(files)`: `files` is `files.items()` in iteration
      order.  A file refused for its format is not read; every other file
      is read and put back at the start. */
  method ValidateDocuments(files: seq<(string, FileHandle)>) returns (errors: map<string, string>)
    requires DistinctFields(files) && DistinctHandles(files)
    modifies FileHandles(files)
    ensures errors == DocumentErrors(files, old(Positions(files)), |files|)
    ensures forall k :: 0 <= k < |files| ==>
              files[k].1.pos == if FormatRefused(errors, files[k].0) then old(files[k].1.pos) else 0
  {
    ghost var start := Positions(files);
    errors := map[];
    for i := 0 to |files|
      invariant |start| == |files|
      invariant errors == DocumentErrors(files, start, i)
      invariant forall k :: i <= k < |files| ==> files[k].1.pos == start[k] && files[k].0 !in errors
      invariant forall k :: 0 <= k < i ==> files[k].1.pos == if FormatRefused(errors, files[k].0) then start[k] else 0
    {
      assert forall k :: 0 <= k < |files| && k != i ==> files[k].1 != files[i].1 && files[k].0 != files[i].0;
      ghost var before := errors;
      errors := CheckEntry(files, start, i, errors);
      forall k | 0 <= k < |files| && k != i
        ensures FormatRefused(errors, files[k].0) == FormatRefused(before, files[k].0)
        ensures files[k].0 in errors <==> files[k].0 in before
      {
      }
    }
  }

  /** One turn of the loop of `validate_documents`: the `i`-th file is
      checked and its error, if any, recorded. */
  method CheckEntry(files: seq<(string, FileHandle)>, ghost start: seq<nat>, i: nat, errors: map<string, string>)
    returns (next: map<string, string>)
    requires i < |files| == |start| && files[i].1.pos == start[i]
    requires errors == DocumentErrors(files, start, i) && files[i].0 !in errors
    modifies files[i].1
    ensures next == DocumentErrors(files, start, i + 1)
    ensures forall field :: field != files[i].0 ==> (field in next <==> field in errors)
    ensures forall field :: field != files[i].0 && field in errors ==> next[field] == errors[field]
    ensures files[i].1.pos == if FormatRefused(next, files[i].0) then start[i] else 0
  {
    var error := CheckDocument(files[i].1);
    DocumentErrorsStep(files, start, i, error);
    next := if error.Some? then errors[files[i].0 := error.value] else errors;
  }

  /** A file is refused for its format exactly when its extension is not an
      OpenDocument or PDF one. */
  lemma {:induction false} FormatRefusedMeaning(files: seq<(string, FileHandle)>, positions: seq<nat>, k: nat)
    requires |files| == |positions| && DistinctFields(files) && k < |files|
    ensures FormatRefused(DocumentErrors(files, positions, |files|), files[k].0) <==> !FileIsOpenDocumentFormat(files[k].1)
  {
    DocumentErrorsMeaning(files, positions);
  }

  /** The files of the first `n` entries that have at least one byte left. */
  function NonEmptyFiles(files: seq<(string, FileHandle)>, positions: seq<nat>, n: nat): (r: map<string, FileHandle>)
    requires n <= |files| == |positions|
  {
    if n == 0 then map[]
    else
      var before := NonEmptyFiles(files, positions, n - 1);
      if files[n - 1].1.Available(positions[n - 1]) > 0 then before[files[n - 1].0 := files[n - 1].1] else before
  }

  /** Exactly the entries whose file is not empty are kept, under their own
      keys. */
  lemma {:induction false} NonEmptyFilesMeaning(files: seq<(string, FileHandle)>, positions: seq<nat>, n: nat)
    requires n <= |files| == |positions| && DistinctFields(files)
    ensures forall k :: 0 <= k < n ==>
              (files[k].0 in NonEmptyFiles(files, positions, n) <==> files[k].1.Available(positions[k]) > 0)
    ensures forall k :: 0 <= k < n && files[k].0 in NonEmptyFiles(files, positions, n) ==>
              NonEmptyFiles(files, positions, n)[files[k].0] == files[k].1
    ensures forall field :: field in NonEmptyFiles(files, positions, n) ==> exists k :: 0 <= k < n && files[k].0 == field
  {
    if n > 0 {
      NonEmptyFilesMeaning(files, positions, n - 1);
    }
  }

  /** One more entry is kept when its file is not empty. */
  lemma {:induction false} NonEmptyFilesStep(files: seq<(string, FileHandle)>, positions: seq<nat>, n: nat)
    requires n < |files| == |positions|
    ensures NonEmptyFiles(files, positions, n + 1)
            == if files[n].1.Available(positions[n]) > 0 then NonEmptyFiles(files, positions, n)[files[n].0 := files[n].1]
               else NonEmptyFiles(files, positions, n)
  {
  }

  /** `filter_empty_files(files)`. */
  method FilterEmptyFiles(files: seq<(string, FileHandle)>) returns (kept: map<string, FileHandle>)
    requires DistinctHandles(files)
    modifies FileHandles(files)
    ensures kept == NonEmptyFiles(files, old(Positions(files)), |files|)
    ensures forall k :: 0 <= k < |files| ==> files[k].1.pos == 0
  {
    ghost var start := Positions(files);
    kept := map[];
    for i := 0 to |files|
      invariant |start| == |files|
      invariant kept == NonEmptyFiles(files, start, i)
      invariant forall k :: i <= k < |files| ==> files[k].1.pos == start[k]
      invariant forall k :: 0 <= k < i ==> files[k].1.pos == 0
    {
      assert forall k :: 0 <= k < |files| && k != i ==> files[k].1 != files[i].1;
      kept := KeepEntry(files, start, i, kept);
    }
  }

  /** One turn of the loop of `filter_empty_files`: the `i`-th entry is
      kept when its file is not empty, and its file is rewound. */
  method KeepEntry(files: seq<(string, FileHandle)>, ghost start: seq<nat>, i: nat, kept: map<string, FileHandle>)
    returns (next: map<string, FileHandle>)
    requires i < |files| == |start| && files[i].1.pos == start[i]
    requires kept == NonEmptyFiles(files, start, i)
    modifies files[i].1
    ensures next == NonEmptyFiles(files, start, i + 1)
    ensures files[i].1.pos == 0
  {
    var (key, contents) := files[i];
    var notEmpty := FileIsNotEmpty(contents);
    NonEmptyFilesStep(files, start, i);
    next := if notEmpty then kept[key := contents] else kept;
  }

  // ---------------------------------------------------------------------
  // saving

  /** What `uploader.save(path, file)` does: saves, raises
      `S3ResponseError`, or raises something else. */
  datatype SaveOutcome = Saved | S3ResponseError | SaveFailed(error: Exception)

  /** `upload_document(uploader, documents_url, service, field,
      file_contents)`: `False` when the uploader refuses with
      `S3ResponseError`, otherwise the document's URL; `urljoin` is
      `urlparse.urljoin`. */
  function UploadDocument(save: string -> SaveOutcome, urljoin: (string, string) -> string, documentsUrl: string,
                          service: Value, field: string, file: FileHandle, suffix: string,
                          repr: Value -> string): (r: Result<Value>)
    ensures r.Ok? ==> r.value == Bool(false) || r.value.Str?
  {
    var supplierId :- Getitem(service, "supplierId");
    var serviceId :- Getitem(service, "id");
    var path :- GenerateFileName(supplierId, serviceId, field, file.filename, suffix, repr);
    match save(path)
    case S3ResponseError => Ok(Bool(false))
    case SaveFailed(e) => Raise(e)
    case Saved => Ok(Str(urljoin(documentsUrl, path)))
  }

  /** The URL is the join of the base with the path the document was saved
      under; a refused save gives `False` and nothing else. */
  lemma {:induction false} UploadDocumentOutcome(save: string -> SaveOutcome, urljoin: (string, string) -> string, documentsUrl: string,
                              service: map<string, Value>, field: string, file: FileHandle, suffix: string,
                              repr: Value -> string)
    requires "supplierId" in service && "id" in service
    requires GenerateFileName(service["supplierId"], service["id"], field, file.filename, suffix, repr).Ok?
    ensures var path := GenerateFileName(service["supplierId"], service["id"], field, file.filename, suffix, repr).value;
            var r := UploadDocument(save, urljoin, documentsUrl, Dict(service), field, file, suffix, repr);
            (save(path) == Saved ==> r == Ok(Str(urljoin(documentsUrl, path))))
            && (save(path) == S3ResponseError ==> r == Ok(Bool(false)))
            && (save(path).SaveFailed? ==> r == Raise(save(path).error))
  {
  }
}
