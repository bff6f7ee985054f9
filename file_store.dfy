/** `dmutils/file.py`: which uploads are accepted, and the name an upload is
    stored under so that it never replaces a stored object.  The objects
    already stored under the upload path are modelled as a finite set of
    names; `secure_filename` is the parameter `secure`. */
module FileStore {

  import opened Results
  import opened Text
  import opened Values

  // ---------------------------------------------------------------------
  // allowed_file

  /** `filename.lower().rsplit('.', 1)[1] in ALLOWED_EXTENSIONS`: a name
      without a `.` has no second part and raises `IndexError`. */
  function AllowedFile(filename: string, allowed: Value): (r: Result<bool>)
    ensures '.' !in filename ==> r == Raise(IndexError)
  {
    var lower := Lower(filename);
    match LastIndexOf(lower, '.')
    case None =>
      assert '.' !in filename by {
        forall k | 0 <= k < |filename| ensures filename[k] != '.' {
          assert lower[k] != '.';
        }
      }
      Raise(IndexError)
    case Some(dot) =>
      LowerKeepsDots(filename);
      PyIn(lower[dot + 1..], allowed)
  }

  /** Lower-casing moves no `.`. */
  lemma {:induction false} LowerKeepsDots(s: string)
    ensures LastIndexOf(Lower(s), '.') == LastIndexOf(s, '.')
    ensures '.' !in s ==> '.' !in Lower(s)
  {
    var l := Lower(s);
    forall i | 0 <= i < |s| ensures l[i] == '.' <==> s[i] == '.' {
      LowerCharDot(s[i]);
    }
    LastIndexOfSame(l, s, '.');
  }

  lemma {:induction false} LowerCharDot(c: char)
    ensures LowerChar(c) == '.' <==> c == '.'
  {
    LowerCharIntoAscii(c);
  }

  /** The type of `name.ext` is `ext`, in any case: with a list of allowed
      extensions it is accepted exactly when `ext` lower-cased is listed. */
  lemma {:induction false} AllowedFileOfName(name: string, ext: string, allowed: seq<Value>)
    requires '.' !in ext
    ensures AllowedFile(name + "." + ext, List(allowed)) == Ok(Str(Lower(ext)) in allowed)
  {
    var f := name + "." + ext;
    LastIndexAfter(name, ext, '.');
    LowerKeepsDots(f);
    var l := Lower(f);
    assert l[|name| + 1..] == Lower(ext);
  }

  /** Lower-casing is Unicode's: with `tiff` allowed, `x.t\u0130ff` is
      accepted. */
  lemma {:induction false} AllowedFileDottedCapitalI()
    ensures AllowedFile("x.t\U{130}ff", List([Str("tiff")])) == Ok(true)
  {
    AllowedFileOfName("x", "t\U{130}ff", [Str("tiff")]);
    assert "x" + "." + "t\U{130}ff" == "x.t\U{130}ff";
    LowerTiff();
  }

  lemma {:induction false} LowerTiff()
    ensures Lower("t\U{130}ff") == "tiff"
  {
    LowerCharExamples();
    assert LowerChar('t') == 't' && LowerChar('f') == 'f';
    var l := Lower("t\U{130}ff");
    assert l[0] == 't' && l[1] == 'i' && l[2] == 'f' && l[3] == 'f';
  }

  // ---------------------------------------------------------------------
  // the pattern `(.+?)_(\d{1,})$`

  /** `re.match(r'(.+?)_(\d{1,})$', part)` succeeds with groups `prefix` and
      `digits`: a non-empty prefix without a newline (`.` does not match
      one), `_`, one or more digits, and the end of the text or a newline
      that ends it (where `$` also matches). */
  predicate MatchesNumbered(part: string, prefix: string, digits: string) {
    |prefix| >= 1 && '\n' !in prefix && |digits| >= 1 && AllDigits(digits)
    && (part == prefix + "_" + digits || part == prefix + "_" + digits + "\n")
  }

  /** The groups of the match, if there is one.  The digits cannot hold a
      `_`, so the `_` before them is the last one in the text. */
  function NumberedGroups(part: string): (r: Option<(string, string)>)
    ensures r.Some? ==> MatchesNumbered(part, r.value.0, r.value.1)
  {
    var core := if |part| > 0 && part[|part| - 1] == '\n' then part[..|part| - 1] else part;
    match LastIndexOf(core, '_')
    case None => None
    case Some(u) =>
      var digits := core[u + 1..];
      if u >= 1 && '\n' !in core[..u] && digits != [] && AllDigits(digits) then
        assert core == core[..u] + "_" + digits;
        assert core != part ==> part == core + "\n";
        Some((core[..u], digits))
      else None
  }

  /** Every match is the one found: the groups are determined by the text. */
  lemma {:induction false} NumberedGroupsComplete(part: string, prefix: string, digits: string)
    requires MatchesNumbered(part, prefix, digits)
    ensures NumberedGroups(part) == Some((prefix, digits))
  {
    var core := prefix + "_" + digits;
    assert (if |part| > 0 && part[|part| - 1] == '\n' then part[..|part| - 1] else part) == core by {
      assert digits[|digits| - 1] != '\n';
      if part == core {
        assert part[|part| - 1] == digits[|digits| - 1];
      } else {
        assert part[..|part| - 1] == core;
      }
    }
    assert LastIndexOf(core, '_') == Some(|prefix|) by {
      assert '_' !in digits;
      LastIndexAfter(prefix, digits, '_');
    }
    assert core[..|prefix|] == prefix && core[|prefix| + 1..] == digits;
  }

  // ---------------------------------------------------------------------
  // s3_generate_unique_filename

  /** The text after the last `.`, if there is one. */
  function Extension(name: string): Option<string> {
    match LastIndexOf(name, '.')
    case None => None
    case Some(dot) => Some(name[dot + 1..])
  }

  /** One renaming step of `s3_generate_unique_filename`: a base ending in
      `_N` gets `N + 1`, any other base gets `_2`; the extension is kept.  A
      name without a `.` raises `IndexError`. */
  function Bump(name: string): (r: Result<string>)
    ensures r.Raise? <==> '.' !in name
    ensures r.Raise? ==> r.error == IndexError
  {
    match LastIndexOf(name, '.')
    case None => Raise(IndexError)
    case Some(dot) => Ok(Bumped(name[..dot], name[dot + 1..]))
  }

  /** The next name for the text before the last `.` and the extension. */
  function Bumped(part: string, ext: string): string {
    match NumberedGroups(part)
    case Some((prefix, digits)) => NumberedNext(prefix, digits, ext)
    case None => part + "_2." + ext
  }

  /** `prefix_{N+1}.ext` for the digits of `N`. */
  function NumberedNext(prefix: string, digits: string, ext: string): string
    requires AllDigits(digits)
  {
    NumberedName(prefix, DigitsValue(digits) + 1, ext)
  }

  /** `prefix_n.ext`. */
  function NumberedName(prefix: string, n: nat, ext: string): string {
    prefix + "_" + NatToString(n) + "." + ext
  }

  /** `base.ext` without a number becomes `base_2.ext`. */
  lemma {:induction false} BumpPlain(base: string, ext: string)
    requires '.' !in ext && NumberedGroups(base).None?
    ensures Bump(base + "." + ext) == Ok(base + "_2." + ext)
  {
    var name := base + "." + ext;
    LastIndexAfter(base, ext, '.');
    assert name[..|base|] == base && name[|base| + 1..] == ext;
  }

  /** `base_N.ext` becomes `base_{N+1}.ext`. */
  lemma {:induction false} BumpNumbered(base: string, n: nat, ext: string)
    requires |base| >= 1 && '\n' !in base && '.' !in ext
    ensures Bump(base + "_" + NatToString(n) + "." + ext) == Ok(base + "_" + NatToString(n + 1) + "." + ext)
  {
    var digits := NatToString(n);
    var part := base + "_" + digits;
    var name := part + "." + ext;
    assert LastIndexOf(name, '.') == Some(|part|) && name[|part| + 1..] == ext
           && NumberedGroups(name[..|part|]) == Some((base, digits)) by {
      NumberedNameParts(base, n, ext);
    }
    assert DigitsValue(digits) == n by {
      NatToStringRoundTrip(n);
    }
    BumpAt(name, |part|);
    BumpedOf(name[..|part|], name[|part| + 1..], base, digits);
  }

  /** `Bump` once the last dot is known. */
  lemma {:induction false} BumpAt(name: string, dot: nat)
    requires LastIndexOf(name, '.') == Some(dot)
    ensures Bump(name) == Ok(Bumped(name[..dot], name[dot + 1..]))
  {
  }

  /** `Bumped` once the groups are known. */
  lemma {:induction false} BumpedOf(part: string, ext: string, prefix: string, digits: string)
    requires NumberedGroups(part) == Some((prefix, digits))
    ensures Bumped(part, ext) == NumberedNext(prefix, digits, ext)
  {
  }

  /** How far along its renaming a name is: the length of the base before
      the number and the number, or the length of an unnumbered base and 0.
      Every step of the renaming ends further along. */
  function Progress(name: string): (nat, nat) {
    match LastIndexOf(name, '.')
    case None => (0, 0)
    case Some(dot) =>
      match NumberedGroups(name[..dot])
      case Some((prefix, digits)) => (|prefix|, DigitsValue(digits))
      case None => (dot, 0)
  }

  predicate Before(a: (nat, nat), b: (nat, nat)) {
    a.0 < b.0 || (a.0 == b.0 && a.1 < b.1)
  }

  lemma {:induction false} NoDotInDigits(s: string)
    requires AllDigits(s)
    ensures '.' !in s && '_' !in s && '\n' !in s
  {
  }

  /** Where the parts of a numbered name are found again. */
  lemma {:induction false} NumberedNameParts(base: string, n: nat, ext: string)
    requires |base| >= 1 && '\n' !in base && '.' !in ext
    ensures var name := base + "_" + NatToString(n) + "." + ext;
            var part := base + "_" + NatToString(n);
            LastIndexOf(name, '.') == Some(|part|)
            && name[..|part|] == part && name[|part| + 1..] == ext
            && NumberedGroups(part) == Some((base, NatToString(n)))
  {
    var digits := NatToString(n);
    var part := base + "_" + digits;
    var name := part + "." + ext;
    assert LastIndexOf(name, '.') == Some(|part|) by {
      LastIndexAfter(part, ext, '.');
    }
    assert name[..|part|] == part && name[|part| + 1..] == ext;
    assert NumberedGroups(part) == Some((base, digits)) by {
      NoDotInDigits(digits);
      NumberedGroupsComplete(part, base, digits);
    }
  }

  /** Where the parts of `part_2.ext` are found again. */
  lemma {:induction false} PlainName(part: string, ext: string)
    requires '.' !in ext
    ensures var name := part + "_2." + ext;
            LastIndexOf(name, '.') == Some(|part| + 2)
            && name[..|part| + 2] == part + "_2" && name[|part| + 3..] == ext
            && NumberedGroups(part + "_2") == if |part| >= 1 && '\n' !in part then Some((part, "2")) else None
  {
    var name := part + "_2." + ext;
    assert name == (part + "_2") + "." + ext;
    LastIndexAfter(part + "_2", ext, '.');
    assert name[..|part| + 2] == part + "_2";
    assert name[|part| + 3..] == ext;
    if |part| >= 1 && '\n' !in part {
      NumberedGroupsComplete(part + "_2", part, "2");
    } else {
      var core := part + "_2";
      assert core[|core| - 1] == '2';
      assert core == part + ['_'] + "2";
      LastIndexAfter(part, "2", '_');
      assert core[..|part|] == part;
    }
  }

  /** Each step ends further along, keeping the extension. */
  lemma {:induction false} BumpProgress(name: string)
    requires '.' in name
    ensures Before(Progress(name), Progress(Bump(name).value))
    ensures Extension(Bump(name).value) == Extension(name)
  {
    var dot := LastIndexOf(name, '.').value;
    BumpAt(name, dot);
    match NumberedGroups(name[..dot])
    case Some((prefix, digits)) =>
      BumpProgressNumbered(name, dot, prefix, digits);
    case None =>
      BumpProgressPlain(name, dot);
  }

  lemma {:induction false} BumpProgressNumbered(name: string, dot: nat, prefix: string, digits: string)
    requires LastIndexOf(name, '.') == Some(dot)
    requires NumberedGroups(name[..dot]) == Some((prefix, digits))
    ensures var next := Bumped(name[..dot], name[dot + 1..]);
            Before(Progress(name), Progress(next)) && Extension(next) == Extension(name)
  {
    NumberedParts(name, dot, prefix, digits);
    NumberedNextProgress(name[..dot], name[dot + 1..], prefix, digits);
    ProgressOf(name, dot, prefix, digits);
    BumpKeepsExtension(name, dot);
  }

  /** The renamed `prefix_N.ext` is `prefix_{N+1}.ext`. */
  lemma {:induction false} NumberedNextProgress(part: string, ext: string, prefix: string, digits: string)
    requires NumberedGroups(part) == Some((prefix, digits))
    requires |prefix| >= 1 && '\n' !in prefix && '.' !in ext
    ensures Progress(Bumped(part, ext)) == (|prefix|, DigitsValue(digits) + 1)
  {
    BumpedOf(part, ext, prefix, digits);
    NumberedNextAhead(prefix, digits, ext);
  }

  lemma {:induction false} NumberedNextAhead(prefix: string, digits: string, ext: string)
    requires |prefix| >= 1 && '\n' !in prefix && '.' !in ext && AllDigits(digits)
    ensures Progress(NumberedNext(prefix, digits, ext)) == (|prefix|, DigitsValue(digits) + 1)
  {
    var n := DigitsValue(digits) + 1;
    assert NumberedNext(prefix, digits, ext) == NumberedName(prefix, n, ext);
    NumberedNameProgress(prefix, n, ext);
  }

  /** `prefix_n.ext` is as far along as `prefix` and `n` say. */
  lemma {:induction false} NumberedNameProgress(prefix: string, n: nat, ext: string)
    requires |prefix| >= 1 && '\n' !in prefix && '.' !in ext
    ensures Progress(NumberedName(prefix, n, ext)) == (|prefix|, n)
  {
    var name := NumberedName(prefix, n, ext);
    var d := NatToString(n);
    var nextPart := prefix + "_" + d;
    assert name == nextPart + "." + ext;
    assert LastIndexOf(name, '.') == Some(|nextPart|) && name[..|nextPart|] == nextPart
           && NumberedGroups(nextPart) == Some((prefix, d)) by {
      NumberedNameParts(prefix, n, ext);
    }
    assert DigitsValue(d) == n by {
      NatToStringRoundTrip(n);
    }
    ProgressOf(name, |nextPart|, prefix, d);
  }

  /** Renaming keeps the extension. */
  lemma {:induction false} BumpKeepsExtension(name: string, dot: nat)
    requires LastIndexOf(name, '.') == Some(dot)
    ensures Extension(Bumped(name[..dot], name[dot + 1..])) == Extension(name)
  {
    var part := name[..dot];
    var ext := name[dot + 1..];
    var stem := match NumberedGroups(part)
      case Some((prefix, digits)) => prefix + "_" + NatToString(DigitsValue(digits) + 1)
      case None => part + "_2";
    assert Bumped(part, ext) == stem + "." + ext;
    LastIndexAfter(stem, ext, '.');
    assert (stem + "." + ext)[|stem| + 1..] == ext;
    ExtensionOf(name, dot);
  }

  /** What a numbered name is made of: a prefix without a line break and
      an extension without a `.`. */
  lemma {:induction false} NumberedParts(name: string, dot: nat, prefix: string, digits: string)
    requires LastIndexOf(name, '.') == Some(dot)
    requires NumberedGroups(name[..dot]) == Some((prefix, digits))
    ensures |prefix| >= 1 && '\n' !in prefix && '.' !in name[dot + 1..]
  {
  }

  lemma {:induction false} ProgressOf(name: string, dot: nat, prefix: string, digits: string)
    requires LastIndexOf(name, '.') == Some(dot)
    requires NumberedGroups(name[..dot]) == Some((prefix, digits))
    ensures Progress(name) == (|prefix|, DigitsValue(digits))
  {
  }

  lemma {:induction false} ExtensionOf(name: string, dot: nat)
    requires LastIndexOf(name, '.') == Some(dot)
    ensures Extension(name) == Some(name[dot + 1..])
  {
  }

  lemma {:induction false} BumpProgressPlain(name: string, dot: nat)
    requires LastIndexOf(name, '.') == Some(dot)
    requires NumberedGroups(name[..dot]).None?
    ensures var next := Bumped(name[..dot], name[dot + 1..]);
            Before(Progress(name), Progress(next)) && Extension(next) == Extension(name)
  {
    var part := name[..dot];
    var ext := name[dot + 1..];
    var next := part + "_2." + ext;
    assert Bumped(part, ext) == next;
    assert Progress(name) == (dot, 0);
    assert LastIndexOf(next, '.') == Some(|part| + 2) && next[|part| + 3..] == ext
           && NumberedGroups(next[..|part| + 2]) == (if |part| >= 1 && '\n' !in part then Some((part, "2")) else None) by {
      PlainName(part, ext);
    }
    assert Extension(next) == Some(ext);
    assert Progress(next).0 >= |part|;
  }

  /** The stored names that are not behind `name`. */
  function Ahead(stored: set<string>, name: string): set<string> {
    set s | s in stored && !Before(Progress(s), Progress(name))
  }

  /** A stored name that a step leaves behind no longer counts. */
  lemma {:induction false} AheadShrinks(stored: set<string>, name: string, next: string)
    requires name in stored && Before(Progress(name), Progress(next))
    ensures |Ahead(stored, next)| < |Ahead(stored, name)|
  {
    var a := Ahead(stored, name);
    var b := Ahead(stored, next);
    assert b <= a - {name};
    SubsetSize(b, a - {name});
  }

  lemma {:induction false} SubsetSize(b: set<string>, a: set<string>)
    requires b <= a
    ensures |b| <= |a|
    decreases |a|
  {
    if b != {} {
      var x :| x in b;
      SubsetSize(b - {x}, a - {x});
    }
  }

  /** `s3_generate_unique_filename(filename, path)`: the name itself when
      nothing is stored under it, and otherwise the first name of its
      renaming that is free. */
  function UniqueFilename(name: string, stored: set<string>): (r: Result<string>)
    ensures name !in stored ==> r == Ok(name)
    ensures r.Ok? ==> r.value !in stored
    ensures r.Raise? <==> name in stored && '.' !in name
    ensures r.Raise? ==> r.error == IndexError
    ensures r.Ok? && '.' in name ==> Extension(r.value) == Extension(name)
    decreases |Ahead(stored, name)|
  {
    if name !in stored then Ok(name)
    else
      match Bump(name)
      case Raise(e) => Raise(e)
      case Ok(next) =>
        BumpProgress(name);
        AheadShrinks(stored, name, next);
        assert '.' in next by {
          var dot := LastIndexOf(next, '.');
          assert dot.Some?;
        }
        UniqueFilename(next, stored)
  }

  /** A stored `base.ext` without a number, and nothing else stored: the
      upload is named `base_2.ext`. */
  lemma {:induction false} UniqueAfterOne(base: string, ext: string)
    requires '.' !in ext && NumberedGroups(base).None?
    ensures UniqueFilename(base + "." + ext, {base + "." + ext}) == Ok(base + "_2." + ext)
  {
    BumpPlain(base, ext);
    assert |base + "_2." + ext| != |base + "." + ext|;
  }

  // ---------------------------------------------------------------------
  // uploads

  /** The objects stored under the upload path. */
  class Folder {
    var names: set<string>

    constructor(names: set<string>)
      ensures this.names == names
    {
      this.names := names;
    }

    /** `s3_upload_fileObj(fileObj, path)`: the object is stored under the
        returned name. */
    method UploadFileObj(filename: string, allowed: Value, secure: string -> string) returns (r: Result<string>)
      modifies this
      ensures r == UploadName(filename, allowed, secure, old(names))
      ensures names == if r.Ok? then old(names) + {r.value} else old(names)
    {
      r := UploadName(filename, allowed, secure, names);
      if r.Ok? {
        names := names + {r.value};
      }
    }

    /** `s3_upload_file_from_request(request, key, path)`: `files` is
        `request.files`, each upload given by its file name. */
    method UploadFileFromRequest(files: Option<map<string, string>>, key: string, allowed: Value,
                                 secure: string -> string) returns (r: Result<string>)
      modifies this
      ensures r == RequestUploadName(files, key, allowed, secure, old(names))
      ensures names == if r.Ok? then old(names) + {r.value} else old(names)
    {
      if files.None? || files.value == map[] {
        r := Raise(Failure("No files in request"));
      } else if key !in files.value || files.value[key] == "" {
        r := Raise(Failure("Invalid request.files key"));
      } else {
        r := UploadFileObj(files.value[key], allowed, secure);
      }
    }
  }

  /** The name `s3_upload_fileObj` stores an upload under.  A rejected
      extension raises with the file name in the message; the byte-string
      template cannot hold text outside ASCII. */
  function UploadName(filename: string, allowed: Value, secure: string -> string, stored: set<string>): (r: Result<string>)
    ensures r.Ok? ==> r.value !in stored
  {
    var accepted :- AllowedFile(filename, allowed);
    if !accepted then
      if IsAscii(filename) then Raise(Failure("Invalid file extension: " + filename)) else Raise(UnicodeEncodeError)
    else UniqueFilename(secure(filename), stored)
  }

  /** A rejected upload is rejected whatever is stored, and an accepted one
      is named by the renaming of its secured name. */
  lemma {:induction false} UploadNameOutcome(filename: string, allowed: Value, secure: string -> string, stored: set<string>, other: set<string>)
    requires AllowedFile(filename, allowed) != Ok(true)
    ensures UploadName(filename, allowed, secure, stored) == UploadName(filename, allowed, secure, other)
    ensures UploadName(filename, allowed, secure, stored).Raise?
  {
  }

  /** The name an upload from a request is stored under: a request without
      files, and a key without a named file, are refused before the upload
      is looked at. */
  function RequestUploadName(files: Option<map<string, string>>, key: string, allowed: Value,
                             secure: string -> string, stored: set<string>): (r: Result<string>)
    ensures files.None? || files.value == map[] ==> r == Raise(Failure("No files in request"))
    ensures files.Some? && files.value != map[] && (key !in files.value || files.value[key] == "")
            ==> r == Raise(Failure("Invalid request.files key"))
    ensures files.Some? && key in files.value && files.value[key] != ""
            ==> r == UploadName(files.value[key], allowed, secure, stored)
  {
    if files.None? || files.value == map[] then Raise(Failure("No files in request"))
    else if key !in files.value || files.value[key] == "" then Raise(Failure("Invalid request.files key"))
    else UploadName(files.value[key], allowed, secure, stored)
  }
}
