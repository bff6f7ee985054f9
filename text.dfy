/** The Python string operations the modelled code relies on, written out
    on `seq<char>`: whitespace stripping and splitting, ASCII case mapping,
    replacement, prefix tests, joining, splitting on a separator and
    decimal digits. */
module Text {

  import opened Results

  /** The characters `unicode.isspace` accepts in Python 2.7, whose
      character database is Unicode 5.2, and so the whitespace that
      `unicode.strip()` and `unicode.split()` remove: the ASCII controls
      `\t` to `\r` and `\x1c` to `\x1f`, the space, and the separators and
      spaces of the wider character set. */
  predicate IsSpace(c: char) {
    ('\t' <= c <= '\r') || ('\U{1C}' <= c <= ' ')
    || c == '\U{85}' || c == '\U{A0}' || c == '\U{1680}' || c == '\U{180E}'
    || ('\U{2000}' <= c <= '\U{200A}')
    || c == '\U{2028}' || c == '\U{2029}' || c == '\U{202F}' || c == '\U{205F}' || c == '\U{3000}'
  }

  /** The class `\s` of a regular expression compiled without the
      `re.UNICODE` flag: the six ASCII whitespace characters only. */
  predicate IsAsciiSpace(c: char) {
    c == ' ' || c == '\t' || c == '\n' || c == '\r' || c == '\U{0B}' || c == '\U{0C}'
  }

  predicate IsDigit(c: char) {
    '0' <= c <= '9'
  }

  predicate IsAsciiLetter(c: char) {
    'a' <= c <= 'z' || 'A' <= c <= 'Z'
  }

  predicate AllSpace(s: string) {
    forall i :: 0 <= i < |s| ==> IsSpace(s[i])
  }

  predicate AllDigits(s: string) {
    forall i :: 0 <= i < |s| ==> IsDigit(s[i])
  }

  predicate NoSpace(s: string) {
    forall i :: 0 <= i < |s| ==> !IsSpace(s[i])
  }

  // ---------------------------------------------------------------------
  // str.strip()

  function TrimLeft(s: string): (r: string)
    ensures |r| <= |s| && r == s[|s| - |r|..]
    ensures AllSpace(s[..|s| - |r|])
    ensures r != [] ==> !IsSpace(r[0])
  {
    if s != [] && IsSpace(s[0]) then
      var r := TrimLeft(s[1..]);
      TrimLeftStep(s, r);
      r
    else s
  }

  /** A leading space more leaves the rest of what `TrimLeft` keeps and
      removes. */
  lemma {:induction false} TrimLeftStep(s: string, r: string)
    requires s != [] && IsSpace(s[0])
    requires |r| <= |s| - 1 && r == s[1..][|s| - 1 - |r|..]
    requires AllSpace(s[1..][..|s| - 1 - |r|])
    ensures r == s[|s| - |r|..] && AllSpace(s[..|s| - |r|])
  {
    var k := |s| - |r|;
    assert s[1..][k - 1..] == s[k..];
    forall i | 0 <= i < k ensures IsSpace(s[..k][i]) {
      if i > 0 {
        assert s[..k][i] == s[1..][..k - 1][i - 1];
      }
    }
  }

  function TrimRight(s: string): (r: string)
    ensures |r| <= |s| && r == s[..|r|]
    ensures AllSpace(s[|r|..])
    ensures r != [] ==> !IsSpace(r[|r| - 1])
  {
    if s != [] && IsSpace(s[|s| - 1]) then
      var r := TrimRight(s[..|s| - 1]);
      assert r == s[..|r|] by {
        assert s[..|s| - 1][..|r|] == s[..|r|];
      }
      assert AllSpace(s[|r|..]) by {
        forall i | 0 <= i < |s| - |r| ensures IsSpace(s[|r|..][i]) {
          if i < |s| - 1 - |r| {
            assert s[|r|..][i] == s[..|s| - 1][|r|..][i];
          }
        }
      }
      r
    else s
  }

  /** `s.strip()`: `s` without its leading and trailing whitespace. */
  function Strip(s: string): (r: string)
  {
    TrimRight(TrimLeft(s))
  }

  /** What `Strip` removes is whitespace, and what it keeps is a slice of
      the input that neither starts nor ends with whitespace. */
  lemma {:induction false} StripIsSlice(s: string)
    ensures exists i, j :: 0 <= i <= j <= |s| && Strip(s) == s[i..j]
                           && AllSpace(s[..i]) && AllSpace(s[j..])
    ensures Strip(s) != [] ==> !IsSpace(Strip(s)[0]) && !IsSpace(Strip(s)[|Strip(s)| - 1])
  {
    var i, j := StripBounds(s);
    StripEnds(s);
  }

  lemma {:induction false} StripBounds(s: string) returns (i: nat, j: nat)
    ensures i <= j <= |s| && Strip(s) == s[i..j] && AllSpace(s[..i]) && AllSpace(s[j..])
  {
    var t := TrimLeft(s);
    i, j := TrimmedSlice(s, t, TrimRight(t));
  }

  /** Cutting whitespace off the front of `s` and then off the back of the
      rest leaves a slice of `s` between two runs of whitespace. */
  lemma {:induction false} TrimmedSlice(s: string, t: string, u: string) returns (i: nat, j: nat)
    requires |t| <= |s| && t == s[|s| - |t|..] && AllSpace(s[..|s| - |t|])
    requires |u| <= |t| && u == t[..|u|] && AllSpace(t[|u|..])
    ensures i <= j <= |s| && u == s[i..j] && AllSpace(s[..i]) && AllSpace(s[j..])
  {
    i := |s| - |t|;
    j := i + |u|;
    assert s[i..][..|u|] == s[i..j];
    assert t[|u|..] == s[j..];
  }

  lemma {:induction false} StripEnds(s: string)
    ensures Strip(s) != [] ==> !IsSpace(Strip(s)[0]) && !IsSpace(Strip(s)[|Strip(s)| - 1])
  {
    var t := TrimLeft(s);
    var u := TrimRight(t);
    if u != [] {
      assert u[0] == t[0];
    }
  }

  /** Text with no surrounding whitespace is its own strip. */
  lemma {:induction false} StripOfStripped(s: string)
    requires s == [] || (!IsSpace(s[0]) && !IsSpace(s[|s| - 1]))
    ensures Strip(s) == s
  {
  }

  /** A space before text that does not start with whitespace is all
      that `TrimLeft` removes. */
  lemma {:induction false} SpaceBefore(t: string)
    requires t != [] && !IsSpace(t[0])
    ensures TrimLeft(" " + t) == t && Strip(" " + t) == Strip(t)
  {
    assert (" " + t)[1..] == t;
  }

  /** ... and so is it followed by one whitespace character. */
  lemma {:induction false} StripOfSpaceAfter(s: string, c: char)
    requires s != [] && !IsSpace(s[0]) && !IsSpace(s[|s| - 1]) && IsSpace(c)
    ensures Strip(s + [c]) == s
  {
    var t := s + [c];
    assert t[0] == s[0];
    assert TrimLeft(t) == t;
    assert t[..|t| - 1] == s;
    StripOfStripped(s);
  }

  /** `empty(s)` of `dmutils/validation.py`: the text is whitespace only,
      which is what leaves nothing after stripping (`BlankIffStripEmpty`). */
  predicate IsBlank(s: string) {
    AllSpace(s)
  }

  lemma {:induction false} BlankIffStripEmpty(s: string)
    ensures IsBlank(s) <==> Strip(s) == []
  {
    if s != [] && IsSpace(s[0]) {
      BlankIffStripEmpty(s[1..]);
      assert TrimLeft(s) == TrimLeft(s[1..]);
      assert AllSpace(s) <==> AllSpace(s[1..]);
    }
  }

  // ---------------------------------------------------------------------
  // str.split() with no argument

  /** The characters of `s` that are not whitespace, in order. */
  function NonSpace(s: string): (r: string)
    ensures NoSpace(r) && |r| <= |s|
  {
    if s == [] then [] else (if IsSpace(s[0]) then [] else [s[0]]) + NonSpace(s[1..])
  }

  /** The longest prefix of `s` without whitespace. */
  function WordPrefix(s: string): (r: string)
    ensures |r| <= |s| && r == s[..|r|] && NoSpace(r)
    ensures |r| < |s| ==> IsSpace(s[|r|])
  {
    if s == [] || IsSpace(s[0]) then [] else [s[0]] + WordPrefix(s[1..])
  }

  /** `s.split()`: the maximal runs of non-whitespace characters. */
  function Words(s: string): (r: seq<string>)
    decreases |s|
  {
    var t := TrimLeft(s);
    if t == [] then []
    else
      var w := WordPrefix(t);
      [w] + Words(t[|w|..])
  }

  function Concat(ss: seq<string>): string {
    if ss == [] then [] else ss[0] + Concat(ss[1..])
  }

  lemma {:induction false} NonSpaceAppend(a: string, b: string)
    ensures NonSpace(a + b) == NonSpace(a) + NonSpace(b)
  {
    if a == [] {
      assert a + b == b;
    } else {
      var h := if IsSpace(a[0]) then [] else [a[0]];
      assert (a + b)[0] == a[0];
      assert (a + b)[1..] == a[1..] + b;
      assert NonSpace(a + b) == h + NonSpace(a[1..] + b);
      NonSpaceAppend(a[1..], b);
      assert h + (NonSpace(a[1..]) + NonSpace(b)) == (h + NonSpace(a[1..])) + NonSpace(b);
    }
  }

  lemma {:induction false} NonSpaceOfSpaces(s: string)
    requires AllSpace(s)
    ensures NonSpace(s) == []
  {
    if s != [] { NonSpaceOfSpaces(s[1..]); }
  }

  lemma {:induction false} NonSpaceOfWord(s: string)
    requires NoSpace(s)
    ensures NonSpace(s) == s
  {
    if s != [] { NonSpaceOfWord(s[1..]); }
  }

  /** Every word is non-empty and contains no whitespace. */
  predicate ProperWords(ws: seq<string>) {
    forall k :: 0 <= k < |ws| ==> ws[k] != [] && NoSpace(ws[k])
  }

  lemma {:induction false} LeadingSpaces(s: string)
    ensures s == s[..|s| - |TrimLeft(s)|] + TrimLeft(s)
    ensures NonSpace(s) == NonSpace(TrimLeft(s))
  {
    var t := TrimLeft(s);
    var lead := s[..|s| - |t|];
    assert s == lead + t;
    NonSpaceAppend(lead, t);
    NonSpaceOfSpaces(lead);
  }

  lemma {:induction false} FirstWord(t: string)
    requires t != [] && !IsSpace(t[0])
    ensures t == WordPrefix(t) + t[|WordPrefix(t)|..]
    ensures NonSpace(t) == WordPrefix(t) + NonSpace(t[|WordPrefix(t)|..])
  {
    var w := WordPrefix(t);
    var rest := t[|w|..];
    assert t == w + rest;
    NonSpaceAppend(w, rest);
    NonSpaceOfWord(w);
  }

  /** The words are non-empty, contain no whitespace, and together they are
      exactly the non-whitespace characters of the text, in order. */
  lemma {:induction false} WordsPartition(s: string)
    ensures ProperWords(Words(s))
    ensures Concat(Words(s)) == NonSpace(s)
    decreases |s|
  {
    var t := TrimLeft(s);
    LeadingSpaces(s);
    if t != [] {
      var w := WordPrefix(t);
      var rest := t[|w|..];
      FirstWord(t);
      WordsPartition(rest);
      var ws := Words(s);
      var tail := Words(rest);
      assert ws == [w] + tail;
      assert w != [] && NoSpace(w);
      assert ProperWords(ws) by {
        forall k | 0 <= k < |ws|
          ensures ws[k] != [] && NoSpace(ws[k])
        {
          if k > 0 { assert ws[k] == tail[k - 1]; }
        }
      }
      assert ws[1..] == tail;
      assert Concat(ws) == w + Concat(tail);
    }
  }

  /** A text that is one word (no whitespace inside, not empty) splits into itself. */
  lemma {:induction false} WordsOfWord(s: string)
    requires s != [] && NoSpace(s)
    ensures Words(s) == [s]
  {
    assert TrimLeft(s) == s;
    WordPrefixOfWord(s);
    assert s[|s|..] == [];
  }

  lemma {:induction false} WordPrefixOfWord(s: string)
    requires NoSpace(s)
    ensures WordPrefix(s) == s
  {
    if s != [] { WordPrefixOfWord(s[1..]); }
  }

  /** A text with at most one character has at most one word. */
  lemma {:induction false} WordsOfChar(s: string)
    requires |s| <= 1
    ensures |Words(s)| <= 1
  {
    if s != [] && !IsSpace(s[0]) { WordsOfWord(s); }
  }

  // ---------------------------------------------------------------------
  // case mapping

  /** `unicode.lower()` of one character in Python 2.7: the simple
      lower-case mapping of its Unicode 5.2 character database (so `\u0130`
      becomes `i` and the Kelvin sign `\u212a` becomes `k`), written as a
      search over the runs of mapped code points; a run marked `% 2` maps
      every other code point. */
  function LowerChar(c: char): char {
    var n := c as int;
    if n < 0x3F4 then
      if n < 0x1B3 then
        if n < 0x190 then
          if n < 0x179 then
            if n < 0x130 then
              if n < 0xD8 then
                if n < 0xC0 then
                  if 0x41 <= n <= 0x5A then (n + 32) as char else c
                else
                  if 0xC0 <= n <= 0xD6 then (n + 32) as char else c
              else
                if n < 0x100 then
                  if 0xD8 <= n <= 0xDE then (n + 32) as char else c
                else
                  if 0x100 <= n <= 0x12E && (n - 0x100) % 2 == 0 then (n + 1) as char else c
            else
              if n < 0x139 then
                if n < 0x132 then
                  if n == 0x130 then (n - 199) as char else c
                else
                  if 0x132 <= n <= 0x136 && (n - 0x132) % 2 == 0 then (n + 1) as char else c
              else
                if n < 0x14A then
                  if 0x139 <= n <= 0x147 && (n - 0x139) % 2 == 0 then (n + 1) as char else c
                else
                  if n < 0x178 then
                    if 0x14A <= n <= 0x176 && (n - 0x14A) % 2 == 0 then (n + 1) as char else c
                  else
                    if n == 0x178 then (n - 121) as char else c
          else
            if n < 0x187 then
              if n < 0x182 then
                if n < 0x181 then
                  if 0x179 <= n <= 0x17D && (n - 0x179) % 2 == 0 then (n + 1) as char else c
                else
                  if n == 0x181 then (n + 210) as char else c
              else
                if n < 0x186 then
                  if 0x182 <= n <= 0x184 && (n - 0x182) % 2 == 0 then (n + 1) as char else c
                else
                  if n == 0x186 then (n + 206) as char else c
            else
              if n < 0x18B then
                if n < 0x189 then
                  if n == 0x187 then (n + 1) as char else c
                else
                  if 0x189 <= n <= 0x18A then (n + 205) as char else c
              else
                if n < 0x18E then
                  if n == 0x18B then (n + 1) as char else c
                else
                  if n < 0x18F then
                    if n == 0x18E then (n + 79) as char else c
                  else
                    if n == 0x18F then (n + 202) as char else c
        else
          if n < 0x19F then
            if n < 0x196 then
              if n < 0x193 then
                if n < 0x191 then
                  if n == 0x190 then (n + 203) as char else c
                else
                  if n == 0x191 then (n + 1) as char else c
              else
                if n < 0x194 then
                  if n == 0x193 then (n + 205) as char else c
                else
                  if n == 0x194 then (n + 207) as char else c
            else
              if n < 0x198 then
                if n < 0x197 then
                  if n == 0x196 then (n + 211) as char else c
                else
                  if n == 0x197 then (n + 209) as char else c
              else
                if n < 0x19C then
                  if n == 0x198 then (n + 1) as char else c
                else
                  if n < 0x19D then
                    if n == 0x19C then (n + 211) as char else c
                  else
                    if n == 0x19D then (n + 213) as char else c
          else
            if n < 0x1A9 then
              if n < 0x1A6 then
                if n < 0x1A0 then
                  if n == 0x19F then (n + 214) as char else c
                else
                  if 0x1A0 <= n <= 0x1A4 && (n - 0x1A0) % 2 == 0 then (n + 1) as char else c
              else
                if n < 0x1A7 then
                  if n == 0x1A6 then (n + 218) as char else c
                else
                  if n == 0x1A7 then (n + 1) as char else c
            else
              if n < 0x1AE then
                if n < 0x1AC then
                  if n == 0x1A9 then (n + 218) as char else c
                else
                  if n == 0x1AC then (n + 1) as char else c
              else
                if n < 0x1AF then
                  if n == 0x1AE then (n + 218) as char else c
                else
                  if n < 0x1B1 then
                    if n == 0x1AF then (n + 1) as char else c
                  else
                    if 0x1B1 <= n <= 0x1B2 then (n + 217) as char else c
      else
        if n < 0x23A then
          if n < 0x1CB then
            if n < 0x1C4 then
              if n < 0x1B8 then
                if n < 0x1B7 then
                  if 0x1B3 <= n <= 0x1B5 && (n - 0x1B3) % 2 == 0 then (n + 1) as char else c
                else
                  if n == 0x1B7 then (n + 219) as char else c
              else
                if n < 0x1BC then
                  if n == 0x1B8 then (n + 1) as char else c
                else
                  if n == 0x1BC then (n + 1) as char else c
            else
              if n < 0x1C7 then
                if n < 0x1C5 then
                  if n == 0x1C4 then (n + 2) as char else c
                else
                  if n == 0x1C5 then (n + 1) as char else c
              else
                if n < 0x1C8 then
                  if n == 0x1C7 then (n + 2) as char else c
                else
                  if n < 0x1CA then
                    if n == 0x1C8 then (n + 1) as char else c
                  else
                    if n == 0x1CA then (n + 2) as char else c
          else
            if n < 0x1F6 then
              if n < 0x1F1 then
                if n < 0x1DE then
                  if 0x1CB <= n <= 0x1DB && (n - 0x1CB) % 2 == 0 then (n + 1) as char else c
                else
                  if 0x1DE <= n <= 0x1EE && (n - 0x1DE) % 2 == 0 then (n + 1) as char else c
              else
                if n < 0x1F2 then
                  if n == 0x1F1 then (n + 2) as char else c
                else
                  if 0x1F2 <= n <= 0x1F4 && (n - 0x1F2) % 2 == 0 then (n + 1) as char else c
            else
              if n < 0x1F8 then
                if n < 0x1F7 then
                  if n == 0x1F6 then (n - 97) as char else c
                else
                  if n == 0x1F7 then (n - 56) as char else c
              else
                if n < 0x220 then
                  if 0x1F8 <= n <= 0x21E && (n - 0x1F8) % 2 == 0 then (n + 1) as char else c
                else
                  if n < 0x222 then
                    if n == 0x220 then (n - 130) as char else c
                  else
                    if 0x222 <= n <= 0x232 && (n - 0x222) % 2 == 0 then (n + 1) as char else c
        else
          if n < 0x370 then
            if n < 0x241 then
              if n < 0x23D then
                if n < 0x23B then
                  if n == 0x23A then (n + 10795) as char else c
                else
                  if n == 0x23B then (n + 1) as char else c
              else
                if n < 0x23E then
                  if n == 0x23D then (n - 163) as char else c
                else
                  if n == 0x23E then (n + 10792) as char else c
            else
              if n < 0x244 then
                if n < 0x243 then
                  if n == 0x241 then (n + 1) as char else c
                else
                  if n == 0x243 then (n - 195) as char else c
              else
                if n < 0x245 then
                  if n == 0x244 then (n + 69) as char else c
                else
                  if n < 0x246 then
                    if n == 0x245 then (n + 71) as char else c
                  else
                    if 0x246 <= n <= 0x24E && (n - 0x246) % 2 == 0 then (n + 1) as char else c
          else
            if n < 0x38E then
              if n < 0x386 then
                if n < 0x376 then
                  if 0x370 <= n <= 0x372 && (n - 0x370) % 2 == 0 then (n + 1) as char else c
                else
                  if n == 0x376 then (n + 1) as char else c
              else
                if n < 0x388 then
                  if n == 0x386 then (n + 38) as char else c
                else
                  if n < 0x38C then
                    if 0x388 <= n <= 0x38A then (n + 37) as char else c
                  else
                    if n == 0x38C then (n + 64) as char else c
            else
              if n < 0x3A3 then
                if n < 0x391 then
                  if 0x38E <= n <= 0x38F then (n + 63) as char else c
                else
                  if 0x391 <= n <= 0x3A1 then (n + 32) as char else c
              else
                if n < 0x3CF then
                  if 0x3A3 <= n <= 0x3AB then (n + 32) as char else c
                else
                  if n < 0x3D8 then
                    if n == 0x3CF then (n + 8) as char else c
                  else
                    if 0x3D8 <= n <= 0x3EE && (n - 0x3D8) % 2 == 0 then (n + 1) as char else c
    else
      if n < 0x1FEC then
        if n < 0x1F18 then
          if n < 0x4C0 then
            if n < 0x3FD then
              if n < 0x3F9 then
                if n < 0x3F7 then
                  if n == 0x3F4 then (n - 60) as char else c
                else
                  if n == 0x3F7 then (n + 1) as char else c
              else
                if n < 0x3FA then
                  if n == 0x3F9 then (n - 7) as char else c
                else
                  if n == 0x3FA then (n + 1) as char else c
            else
              if n < 0x410 then
                if n < 0x400 then
                  if 0x3FD <= n <= 0x3FF then (n - 130) as char else c
                else
                  if 0x400 <= n <= 0x40F then (n + 80) as char else c
              else
                if n < 0x460 then
                  if 0x410 <= n <= 0x42F then (n + 32) as char else c
                else
                  if n < 0x48A then
                    if 0x460 <= n <= 0x480 && (n - 0x460) % 2 == 0 then (n + 1) as char else c
                  else
                    if 0x48A <= n <= 0x4BE && (n - 0x48A) % 2 == 0 then (n + 1) as char else c
          else
            if n < 0x10A0 then
              if n < 0x4D0 then
                if n < 0x4C1 then
                  if n == 0x4C0 then (n + 15) as char else c
                else
                  if 0x4C1 <= n <= 0x4CD && (n - 0x4C1) % 2 == 0 then (n + 1) as char else c
              else
                if n < 0x531 then
                  if 0x4D0 <= n <= 0x524 && (n - 0x4D0) % 2 == 0 then (n + 1) as char else c
                else
                  if 0x531 <= n <= 0x556 then (n + 48) as char else c
            else
              if n < 0x1E9E then
                if n < 0x1E00 then
                  if 0x10A0 <= n <= 0x10C5 then (n + 7264) as char else c
                else
                  if 0x1E00 <= n <= 0x1E94 && (n - 0x1E00) % 2 == 0 then (n + 1) as char else c
              else
                if n < 0x1EA0 then
                  if n == 0x1E9E then (n - 7615) as char else c
                else
                  if n < 0x1F08 then
                    if 0x1EA0 <= n <= 0x1EFE && (n - 0x1EA0) % 2 == 0 then (n + 1) as char else c
                  else
                    if 0x1F08 <= n <= 0x1F0F then (n - 8) as char else c
        else
          if n < 0x1FB8 then
            if n < 0x1F59 then
              if n < 0x1F38 then
                if n < 0x1F28 then
                  if 0x1F18 <= n <= 0x1F1D then (n - 8) as char else c
                else
                  if 0x1F28 <= n <= 0x1F2F then (n - 8) as char else c
              else
                if n < 0x1F48 then
                  if 0x1F38 <= n <= 0x1F3F then (n - 8) as char else c
                else
                  if 0x1F48 <= n <= 0x1F4D then (n - 8) as char else c
            else
              if n < 0x1F88 then
                if n < 0x1F68 then
                  if 0x1F59 <= n <= 0x1F5F && (n - 0x1F59) % 2 == 0 then (n - 8) as char else c
                else
                  if 0x1F68 <= n <= 0x1F6F then (n - 8) as char else c
              else
                if n < 0x1F98 then
                  if 0x1F88 <= n <= 0x1F8F then (n - 8) as char else c
                else
                  if n < 0x1FA8 then
                    if 0x1F98 <= n <= 0x1F9F then (n - 8) as char else c
                  else
                    if 0x1FA8 <= n <= 0x1FAF then (n - 8) as char else c
          else
            if n < 0x1FCC then
              if n < 0x1FBC then
                if n < 0x1FBA then
                  if 0x1FB8 <= n <= 0x1FB9 then (n - 8) as char else c
                else
                  if 0x1FBA <= n <= 0x1FBB then (n - 74) as char else c
              else
                if n < 0x1FC8 then
                  if n == 0x1FBC then (n - 9) as char else c
                else
                  if 0x1FC8 <= n <= 0x1FCB then (n - 86) as char else c
            else
              if n < 0x1FDA then
                if n < 0x1FD8 then
                  if n == 0x1FCC then (n - 9) as char else c
                else
                  if 0x1FD8 <= n <= 0x1FD9 then (n - 8) as char else c
              else
                if n < 0x1FE8 then
                  if 0x1FDA <= n <= 0x1FDB then (n - 100) as char else c
                else
                  if n < 0x1FEA then
                    if 0x1FE8 <= n <= 0x1FE9 then (n - 8) as char else c
                  else
                    if 0x1FEA <= n <= 0x1FEB then (n - 112) as char else c
      else
        if n < 0x2C6E then
          if n < 0x2183 then
            if n < 0x2126 then
              if n < 0x1FFA then
                if n < 0x1FF8 then
                  if n == 0x1FEC then (n - 7) as char else c
                else
                  if 0x1FF8 <= n <= 0x1FF9 then (n - 128) as char else c
              else
                if n < 0x1FFC then
                  if 0x1FFA <= n <= 0x1FFB then (n - 126) as char else c
                else
                  if n == 0x1FFC then (n - 9) as char else c
            else
              if n < 0x212B then
                if n < 0x212A then
                  if n == 0x2126 then (n - 7517) as char else c
                else
                  if n == 0x212A then (n - 8383) as char else c
              else
                if n < 0x2132 then
                  if n == 0x212B then (n - 8262) as char else c
                else
                  if n < 0x2160 then
                    if n == 0x2132 then (n + 28) as char else c
                  else
                    if 0x2160 <= n <= 0x216F then (n + 16) as char else c
          else
            if n < 0x2C62 then
              if n < 0x2C00 then
                if n < 0x24B6 then
                  if n == 0x2183 then (n + 1) as char else c
                else
                  if 0x24B6 <= n <= 0x24CF then (n + 26) as char else c
              else
                if n < 0x2C60 then
                  if 0x2C00 <= n <= 0x2C2E then (n + 48) as char else c
                else
                  if n == 0x2C60 then (n + 1) as char else c
            else
              if n < 0x2C64 then
                if n < 0x2C63 then
                  if n == 0x2C62 then (n - 10743) as char else c
                else
                  if n == 0x2C63 then (n - 3814) as char else c
              else
                if n < 0x2C67 then
                  if n == 0x2C64 then (n - 10727) as char else c
                else
                  if n < 0x2C6D then
                    if 0x2C67 <= n <= 0x2C6B && (n - 0x2C67) % 2 == 0 then (n + 1) as char else c
                  else
                    if n == 0x2C6D then (n - 10780) as char else c
        else
          if n < 0xA662 then
            if n < 0x2C75 then
              if n < 0x2C70 then
                if n < 0x2C6F then
                  if n == 0x2C6E then (n - 10749) as char else c
                else
                  if n == 0x2C6F then (n - 10783) as char else c
              else
                if n < 0x2C72 then
                  if n == 0x2C70 then (n - 10782) as char else c
                else
                  if n == 0x2C72 then (n + 1) as char else c
            else
              if n < 0x2C80 then
                if n < 0x2C7E then
                  if n == 0x2C75 then (n + 1) as char else c
                else
                  if 0x2C7E <= n <= 0x2C7F then (n - 10815) as char else c
              else
                if n < 0x2CEB then
                  if 0x2C80 <= n <= 0x2CE2 && (n - 0x2C80) % 2 == 0 then (n + 1) as char else c
                else
                  if n < 0xA640 then
                    if 0x2CEB <= n <= 0x2CED && (n - 0x2CEB) % 2 == 0 then (n + 1) as char else c
                  else
                    if 0xA640 <= n <= 0xA65E && (n - 0xA640) % 2 == 0 then (n + 1) as char else c
          else
            if n < 0xA77D then
              if n < 0xA722 then
                if n < 0xA680 then
                  if 0xA662 <= n <= 0xA66C && (n - 0xA662) % 2 == 0 then (n + 1) as char else c
                else
                  if 0xA680 <= n <= 0xA696 && (n - 0xA680) % 2 == 0 then (n + 1) as char else c
              else
                if n < 0xA732 then
                  if 0xA722 <= n <= 0xA72E && (n - 0xA722) % 2 == 0 then (n + 1) as char else c
                else
                  if n < 0xA779 then
                    if 0xA732 <= n <= 0xA76E && (n - 0xA732) % 2 == 0 then (n + 1) as char else c
                  else
                    if 0xA779 <= n <= 0xA77B && (n - 0xA779) % 2 == 0 then (n + 1) as char else c
            else
              if n < 0xA78B then
                if n < 0xA77E then
                  if n == 0xA77D then (n - 35332) as char else c
                else
                  if 0xA77E <= n <= 0xA786 && (n - 0xA77E) % 2 == 0 then (n + 1) as char else c
              else
                if n < 0xFF21 then
                  if n == 0xA78B then (n + 1) as char else c
                else
                  if n < 0x10400 then
                    if 0xFF21 <= n <= 0xFF3A then (n + 32) as char else c
                  else
                    if 0x10400 <= n <= 0x10427 then (n + 40) as char else c
  }

  /** `s.lower()` of a `unicode` text, one character at a time. */
  function Lower(s: string): (r: string)
    ensures |r| == |s|
    ensures forall i {:trigger r[i]} :: 0 <= i < |s| ==> r[i] == LowerChar(s[i])
  {
    if s == [] then [] else [LowerChar(s[0])] + Lower(s[1..])
  }

  /** A lower-case letter has no lower-case mapping of its own. */
  lemma {:induction false} LowerCharIdempotent(c: char)
    ensures LowerChar(LowerChar(c)) == LowerChar(c)
  {
    var n := c as int;
    if n < 0x130 {
      LowerIdempotentPart1(c);
    } else if n < 0x178 {
      LowerIdempotentPart2(c);
    } else if n < 0x186 {
      LowerIdempotentPart3(c);
    } else if n < 0x18E {
      LowerIdempotentPart4(c);
    } else if n < 0x193 {
      LowerIdempotentPart5(c);
    } else if n < 0x198 {
      LowerIdempotentPart6(c);
    } else if n < 0x1A0 {
      LowerIdempotentPart7(c);
    } else if n < 0x1AC {
      LowerIdempotentPart8(c);
    } else if n < 0x1B3 {
      LowerIdempotentPart9(c);
    } else if n < 0x1C4 {
      LowerIdempotentPart10(c);
    } else if n < 0x1CA {
      LowerIdempotentPart11(c);
    } else if n < 0x1F2 {
      LowerIdempotentPart12(c);
    } else if n < 0x220 {
      LowerIdempotentPart13(c);
    } else if n < 0x23D {
      LowerIdempotentPart14(c);
    } else if n < 0x244 {
      LowerIdempotentPart15(c);
    } else if n < 0x376 {
      LowerIdempotentPart16(c);
    } else if n < 0x38E {
      LowerIdempotentPart17(c);
    } else if n < 0x3D8 {
      LowerIdempotentPart18(c);
    } else if n < 0x3FA {
      LowerIdempotentPart19(c);
    } else if n < 0x460 {
      LowerIdempotentPart20(c);
    } else if n < 0x4D0 {
      LowerIdempotentPart21(c);
    } else if n < 0x1E9E {
      LowerIdempotentPart22(c);
    } else if n < 0x1F28 {
      LowerIdempotentPart23(c);
    } else if n < 0x1F68 {
      LowerIdempotentPart24(c);
    } else if n < 0x1FB8 {
      LowerIdempotentPart25(c);
    } else if n < 0x1FCC {
      LowerIdempotentPart26(c);
    } else if n < 0x1FEA {
      LowerIdempotentPart27(c);
    } else if n < 0x1FFC {
      LowerIdempotentPart28(c);
    } else if n < 0x2132 {
      LowerIdempotentPart29(c);
    } else if n < 0x2C00 {
      LowerIdempotentPart30(c);
    } else if n < 0x2C64 {
      LowerIdempotentPart31(c);
    } else if n < 0x2C6F {
      LowerIdempotentPart32(c);
    } else if n < 0x2C7E {
      LowerIdempotentPart33(c);
    } else if n < 0xA662 {
      LowerIdempotentPart34(c);
    } else if n < 0xA779 {
      LowerIdempotentPart35(c);
    } else if n < 0xFF21 {
      LowerIdempotentPart36(c);
    } else {
      LowerIdempotentPart37(c);
    }
  }

  lemma {:induction false} LowerIdempotentPart1(c: char)
    requires c as int < 0x130
    ensures LowerChar(LowerChar(c)) == LowerChar(c)
  {
  }

  lemma {:induction false} LowerIdempotentPart2(c: char)
    requires 0x130 <= c as int < 0x178
    ensures LowerChar(LowerChar(c)) == LowerChar(c)
  {
  }

  lemma {:induction false} LowerIdempotentPart3(c: char)
    requires 0x178 <= c as int < 0x186
    ensures LowerChar(LowerChar(c)) == LowerChar(c)
  {
  }

  lemma {:induction false} LowerIdempotentPart4(c: char)
    requires 0x186 <= c as int < 0x18E
    ensures LowerChar(LowerChar(c)) == LowerChar(c)
  {
  }

  lemma {:induction false} LowerIdempotentPart5(c: char)
    requires 0x18E <= c as int < 0x193
    ensures LowerChar(LowerChar(c)) == LowerChar(c)
  {
  }

  lemma {:induction false} LowerIdempotentPart6(c: char)
    requires 0x193 <= c as int < 0x198
    ensures LowerChar(LowerChar(c)) == LowerChar(c)
  {
  }

  lemma {:induction false} LowerIdempotentPart7(c: char)
    requires 0x198 <= c as int < 0x1A0
    ensures LowerChar(LowerChar(c)) == LowerChar(c)
  {
  }

  lemma {:induction false} LowerIdempotentPart8(c: char)
    requires 0x1A0 <= c as int < 0x1AC
    ensures LowerChar(LowerChar(c)) == LowerChar(c)
  {
  }

  lemma {:induction false} LowerIdempotentPart9(c: char)
    requires 0x1AC <= c as int < 0x1B3
    ensures LowerChar(LowerChar(c)) == LowerChar(c)
  {
  }

  lemma {:induction false} LowerIdempotentPart10(c: char)
    requires 0x1B3 <= c as int < 0x1C4
    ensures LowerChar(LowerChar(c)) == LowerChar(c)
  {
  }

  lemma {:induction false} LowerIdempotentPart11(c: char)
    requires 0x1C4 <= c as int < 0x1CA
    ensures LowerChar(LowerChar(c)) == LowerChar(c)
  {
  }

  lemma {:induction false} LowerIdempotentPart12(c: char)
    requires 0x1CA <= c as int < 0x1F2
    ensures LowerChar(LowerChar(c)) == LowerChar(c)
  {
  }

  lemma {:induction false} LowerIdempotentPart13(c: char)
    requires 0x1F2 <= c as int < 0x220
    ensures LowerChar(LowerChar(c)) == LowerChar(c)
  {
  }

  lemma {:induction false} LowerIdempotentPart14(c: char)
    requires 0x220 <= c as int < 0x23D
    ensures LowerChar(LowerChar(c)) == LowerChar(c)
  {
  }

  lemma {:induction false} LowerIdempotentPart15(c: char)
    requires 0x23D <= c as int < 0x244
    ensures LowerChar(LowerChar(c)) == LowerChar(c)
  {
  }

  lemma {:induction false} LowerIdempotentPart16(c: char)
    requires 0x244 <= c as int < 0x376
    ensures LowerChar(LowerChar(c)) == LowerChar(c)
  {
  }

  lemma {:induction false} LowerIdempotentPart17(c: char)
    requires 0x376 <= c as int < 0x38E
    ensures LowerChar(LowerChar(c)) == LowerChar(c)
  {
  }

  lemma {:induction false} LowerIdempotentPart18(c: char)
    requires 0x38E <= c as int < 0x3D8
    ensures LowerChar(LowerChar(c)) == LowerChar(c)
  {
  }

  lemma {:induction false} LowerIdempotentPart19(c: char)
    requires 0x3D8 <= c as int < 0x3FA
    ensures LowerChar(LowerChar(c)) == LowerChar(c)
  {
  }

  lemma {:induction false} LowerIdempotentPart20(c: char)
    requires 0x3FA <= c as int < 0x460
    ensures LowerChar(LowerChar(c)) == LowerChar(c)
  {
  }

  lemma {:induction false} LowerIdempotentPart21(c: char)
    requires 0x460 <= c as int < 0x4D0
    ensures LowerChar(LowerChar(c)) == LowerChar(c)
  {
  }

  lemma {:induction false} LowerIdempotentPart22(c: char)
    requires 0x4D0 <= c as int < 0x1E9E
    ensures LowerChar(LowerChar(c)) == LowerChar(c)
  {
  }

  lemma {:induction false} LowerIdempotentPart23(c: char)
    requires 0x1E9E <= c as int < 0x1F28
    ensures LowerChar(LowerChar(c)) == LowerChar(c)
  {
  }

  lemma {:induction false} LowerIdempotentPart24(c: char)
    requires 0x1F28 <= c as int < 0x1F68
    ensures LowerChar(LowerChar(c)) == LowerChar(c)
  {
  }

  lemma {:induction false} LowerIdempotentPart25(c: char)
    requires 0x1F68 <= c as int < 0x1FB8
    ensures LowerChar(LowerChar(c)) == LowerChar(c)
  {
  }

  lemma {:induction false} LowerIdempotentPart26(c: char)
    requires 0x1FB8 <= c as int < 0x1FCC
    ensures LowerChar(LowerChar(c)) == LowerChar(c)
  {
  }

  lemma {:induction false} LowerIdempotentPart27(c: char)
    requires 0x1FCC <= c as int < 0x1FEA
    ensures LowerChar(LowerChar(c)) == LowerChar(c)
  {
  }

  lemma {:induction false} LowerIdempotentPart28(c: char)
    requires 0x1FEA <= c as int < 0x1FFC
    ensures LowerChar(LowerChar(c)) == LowerChar(c)
  {
  }

  lemma {:induction false} LowerIdempotentPart29(c: char)
    requires 0x1FFC <= c as int < 0x2132
    ensures LowerChar(LowerChar(c)) == LowerChar(c)
  {
  }

  lemma {:induction false} LowerIdempotentPart30(c: char)
    requires 0x2132 <= c as int < 0x2C00
    ensures LowerChar(LowerChar(c)) == LowerChar(c)
  {
  }

  lemma {:induction false} LowerIdempotentPart31(c: char)
    requires 0x2C00 <= c as int < 0x2C64
    ensures LowerChar(LowerChar(c)) == LowerChar(c)
  {
  }

  lemma {:induction false} LowerIdempotentPart32(c: char)
    requires 0x2C64 <= c as int < 0x2C6F
    ensures LowerChar(LowerChar(c)) == LowerChar(c)
  {
  }

  lemma {:induction false} LowerIdempotentPart33(c: char)
    requires 0x2C6F <= c as int < 0x2C7E
    ensures LowerChar(LowerChar(c)) == LowerChar(c)
  {
  }

  lemma {:induction false} LowerIdempotentPart34(c: char)
    requires 0x2C7E <= c as int < 0xA662
    ensures LowerChar(LowerChar(c)) == LowerChar(c)
  {
  }

  lemma {:induction false} LowerIdempotentPart35(c: char)
    requires 0xA662 <= c as int < 0xA779
    ensures LowerChar(LowerChar(c)) == LowerChar(c)
  {
  }

  lemma {:induction false} LowerIdempotentPart36(c: char)
    requires 0xA779 <= c as int < 0xFF21
    ensures LowerChar(LowerChar(c)) == LowerChar(c)
  {
  }

  lemma {:induction false} LowerIdempotentPart37(c: char)
    requires 0xFF21 <= c as int
    ensures LowerChar(LowerChar(c)) == LowerChar(c)
  {
  }

  /** The only characters outside ASCII that lower-case into it are the
      dotted capital I and the Kelvin sign; on ASCII the mapping is the one
      from `A`..`Z` to `a`..`z`. */
  lemma {:induction false} LowerCharIntoAscii(c: char)
    ensures c as int < 128 ==> LowerChar(c) == AsciiLowerChar(c)
    ensures LowerChar(c) as int < 128 <==> c as int < 128 || c == '\U{130}' || c == '\U{212A}'
  {
  }

  /** Three mappings outside ASCII. */
  lemma {:induction false} LowerCharExamples()
    ensures LowerChar('\U{C9}') == '\U{E9}'
    ensures LowerChar('\U{130}') == 'i' && LowerChar('\U{212A}') == 'k'
  {
  }

  /** The case-insensitive letters of C's `strtod` and of byte strings:
      `A`..`Z` only. */
  function AsciiLowerChar(c: char): char {
    if 'A' <= c <= 'Z' then (c as int + 32) as char else c
  }

  function AsciiLower(s: string): (r: string)
    ensures |r| == |s|
    ensures forall i :: 0 <= i < |s| ==> r[i] == AsciiLowerChar(s[i])
  {
    if s == [] then [] else [AsciiLowerChar(s[0])] + AsciiLower(s[1..])
  }

  // ---------------------------------------------------------------------
  // replacement

  /** `s.replace(c, rep)` for a one-character pattern. */
  function ReplaceChar(s: string, c: char, rep: string): (r: string)
  {
    if s == [] then []
    else (if s[0] == c then rep else [s[0]]) + ReplaceChar(s[1..], c, rep)
  }

  lemma {:induction false} ReplaceCharAppend(a: string, b: string, c: char, rep: string)
    ensures ReplaceChar(a + b, c, rep) == ReplaceChar(a, c, rep) + ReplaceChar(b, c, rep)
  {
    if a == [] {
      assert a + b == b;
    } else {
      assert (a + b)[0] == a[0];
      assert (a + b)[1..] == a[1..] + b;
      ReplaceCharAppend(a[1..], b, c, rep);
    }
  }

  /** Replacing a character that does not occur changes nothing. */
  lemma {:induction false} ReplaceCharAbsent(s: string, c: char, rep: string)
    requires c !in s
    ensures ReplaceChar(s, c, rep) == s
  {
    if s != [] { ReplaceCharAbsent(s[1..], c, rep); }
  }

  /** `s.replace(c, "")`: every occurrence of `c` removed. */
  function RemoveChar(s: string, c: char): (r: string)
    ensures c !in r
    ensures forall d :: d != c ==> (d in r <==> d in s)
  {
    if s == [] then []
    else (if s[0] == c then [] else [s[0]]) + RemoveChar(s[1..], c)
  }

  /** Removing a character that does not occur changes nothing. */
  lemma {:induction false} RemoveCharAbsent(s: string, c: char)
    requires c !in s
    ensures RemoveChar(s, c) == s
  {
    if s != [] { RemoveCharAbsent(s[1..], c); }
  }
  predicate StartsWith(s: string, prefix: string) {
    |prefix| <= |s| && s[..|prefix|] == prefix
  }

  /** `s.replace(pat, rep)`: non-overlapping occurrences, left to right. */
  function ReplaceAll(s: string, pat: string, rep: string): (r: string)
    requires pat != []
    decreases |s|
  {
    if s == [] then []
    else if StartsWith(s, pat) then rep + ReplaceAll(s[|pat|..], pat, rep)
    else [s[0]] + ReplaceAll(s[1..], pat, rep)
  }

  /** `sub` occurs in `s` starting at position `i`. */
  predicate OccursAt(s: string, sub: string, i: int) {
    0 <= i <= |s| - |sub| && s[i..i + |sub|] == sub
  }

  /** `sub in s`. */
  predicate Contains(s: string, sub: string) {
    exists i :: 0 <= i <= |s| - |sub| && OccursAt(s, sub, i)
  }

  /** Replacing a pattern that does not occur changes nothing. */
  lemma {:induction false} ReplaceAllAbsent(s: string, pat: string, rep: string)
    requires pat != [] && !Contains(s, pat)
    ensures ReplaceAll(s, pat, rep) == s
    decreases |s|
  {
    if s != [] {
      assert StartsWith(s, pat) ==> OccursAt(s, pat, 0);
      forall i | 0 <= i <= |s[1..]| - |pat| && OccursAt(s[1..], pat, i)
        ensures OccursAt(s, pat, i + 1)
      {
        assert s[1..][i..i + |pat|] == s[i + 1..i + 1 + |pat|];
      }
      assert !Contains(s[1..], pat);
      ReplaceAllAbsent(s[1..], pat, rep);
    }
  }

  /** Text without the pattern's first character passes through a
      replacement unchanged. */
  lemma {:induction false} ReplaceAllPrefix(a: string, b: string, pat: string, rep: string)
    requires pat != [] && pat[0] !in a
    ensures ReplaceAll(a + b, pat, rep) == a + ReplaceAll(b, pat, rep)
    decreases |a|
  {
    if a != [] {
      assert (a + b)[1..] == a[1..] + b;
      assert !StartsWith(a + b, pat) by {
        assert (a + b)[0] == a[0];
      }
      ReplaceAllPrefix(a[1..], b, pat, rep);
    } else {
      assert a + b == b;
    }
  }

  /** Text without the pattern's first character does not contain it. */
  lemma {:induction false} LacksFirst(s: string, pat: string)
    requires pat != [] && pat[0] !in s
    ensures !Contains(s, pat)
  {
  }

  /** `s.replace(pat, rep, 1)`: only the first occurrence. */
  function ReplaceFirst(s: string, pat: string, rep: string): (r: string)
    requires pat != []
    decreases |s|
  {
    if s == [] then []
    else if StartsWith(s, pat) then rep + s[|pat|..]
    else [s[0]] + ReplaceFirst(s[1..], pat, rep)
  }

  // ---------------------------------------------------------------------
  // joining and splitting on a separator

  /** `sep.join(items)`. */
  function Join(sep: string, items: seq<string>): (r: string)
  {
    if items == [] then []
    else if |items| == 1 then items[0]
    else items[0] + sep + Join(sep, items[1..])
  }

  /** `s.split(c)` for a one-character separator: always at least one piece. */
  function SplitOn(s: string, c: char): (r: seq<string>)
    ensures |r| >= 1
    ensures forall k :: 0 <= k < |r| ==> c !in r[k]
  {
    if s == [] then [[]]
    else if s[0] == c then [[]] + SplitOn(s[1..], c)
    else
      var rest := SplitOn(s[1..], c);
      [[s[0]] + rest[0]] + rest[1..]
  }

  /** The first piece is the text up to the first separator. */
  lemma {:induction false} SplitOnFirst(a: string, b: string, c: char)
    requires c !in a
    ensures SplitOn(a + [c] + b, c) == [a] + SplitOn(b, c)
    ensures SplitOn(a, c) == [a]
    decreases |a|
  {
    if a == [] {
      assert a + [c] + b == [c] + b;
      assert ([c] + b)[1..] == b;
    } else {
      SplitOnFirst(a[1..], b, c);
      assert (a + [c] + b)[1..] == a[1..] + [c] + b;
      assert (a + [c] + b)[0] == a[0];
      assert [a[0]] + a[1..] == a;
    }
  }

  /** Joining the pieces with the separator gives back the text. */
  lemma {:induction false} JoinSplitOn(s: string, c: char)
    ensures Join([c], SplitOn(s, c)) == s
  {
    if s != [] {
      JoinSplitOn(s[1..], c);
      var rest := SplitOn(s[1..], c);
      if s[0] != c {
        if |rest| == 1 {
          assert Join([c], SplitOn(s, c)) == [s[0]] + rest[0];
        } else {
          assert Join([c], rest) == rest[0] + [c] + Join([c], rest[1..]);
        }
        assert s == [s[0]] + s[1..];
      }
    }
  }

  /** The position of the last occurrence of `c`, if any. */
  function LastIndexOf(s: string, c: char): (r: Option<nat>)
    ensures r.Some? ==> r.value < |s| && s[r.value] == c && c !in s[r.value + 1..]
    ensures r.None? ==> c !in s
  {
    if s == [] then None
    else if s[|s| - 1] == c then Some(|s| - 1)
    else
      var r := LastIndexOf(s[..|s| - 1], c);
      assert s[..|s| - 1] + [s[|s| - 1]] == s;
      r
  }

  /** Texts of the same length with `c` at the same places have the same
      last occurrence of `c`. */
  lemma {:induction false} LastIndexOfSame(a: string, b: string, c: char)
    requires |a| == |b| && forall i :: 0 <= i < |a| ==> (a[i] == c <==> b[i] == c)
    ensures LastIndexOf(a, c) == LastIndexOf(b, c)
    decreases |a|
  {
    if a != [] && a[|a| - 1] != c {
      LastIndexOfSame(a[..|a| - 1], b[..|b| - 1], c);
    }
  }

  /** Text that does not hold `c` leaves the last occurrence where it was. */
  lemma {:induction false} LastIndexOfAppend(a: string, b: string, c: char)
    requires c !in b
    ensures LastIndexOf(a + b, c) == LastIndexOf(a, c)
    decreases |b|
  {
    if b != [] {
      var ab := a + b;
      assert ab[..|ab| - 1] == a + b[..|b| - 1];
      LastIndexOfAppend(a, b[..|b| - 1], c);
    } else {
      assert a + b == a;
    }
  }

  /** `c` followed by text without it is the last occurrence. */
  lemma {:induction false} LastIndexAfter(a: string, b: string, c: char)
    requires c !in b
    ensures LastIndexOf(a + [c] + b, c) == Some(|a|)
  {
    LastIndexOfAppend(a + [c], b, c);
    var ac := a + [c];
    assert ac[|ac| - 1] == c;
  }

  // ---------------------------------------------------------------------
  // decimal digits

  function DigitValue(c: char): nat
    requires IsDigit(c)
  {
    c as int - '0' as int
  }

  function DigitChar(d: nat): char
    requires d < 10
  {
    ('0' as int + d) as char
  }

  /** `int(s)` of a string of decimal digits. */
  function DigitsValue(s: string): nat
    requires AllDigits(s)
  {
    if s == [] then 0 else 10 * DigitsValue(s[..|s| - 1]) + DigitValue(s[|s| - 1])
  }

  /** `str(n)` of a natural number: decimal, without leading zeros. */
  function NatToString(n: nat): (r: string)
    ensures r != [] && AllDigits(r)
    ensures r[0] != '0' || n == 0
  {
    if n < 10 then [DigitChar(n)] else NatToString(n / 10) + [DigitChar(n % 10)]
  }

  /** Reading a printed number gives the number back. */
  lemma {:induction false} NatToStringRoundTrip(n: nat)
    ensures DigitsValue(NatToString(n)) == n
  {
    if n >= 10 {
      NatToStringRoundTrip(n / 10);
      var s := NatToString(n);
      assert s[..|s| - 1] == NatToString(n / 10);
    }
  }

  // ---------------------------------------------------------------------
  // Unicode decimal digits

  /** The value `int(c)` gives a one-character text in Python 2.7: any
      decimal digit of its Unicode 5.2 character database counts, not only
      `0` to `9`.  The decimal digits come in runs of ten, zero to nine;
      the search below is over the code point of each run's zero. */
  function DecimalValue(c: char): (r: Option<nat>)
    ensures r.Some? ==> r.value < 10
  {
    var n := c as int;
    if n < 0x1946 then
      if n < 0xC66 then
        if n < 0x9E6 then
          if n < 0x6F0 then
            if n < 0x660 then
              if 0x30 <= n < 0x3A then Some(n - 0x30) else None
            else
              if 0x660 <= n < 0x66A then Some(n - 0x660) else None
          else
            if n < 0x7C0 then
              if 0x6F0 <= n < 0x6FA then Some(n - 0x6F0) else None
            else
              if n < 0x966 then
                if 0x7C0 <= n < 0x7CA then Some(n - 0x7C0) else None
              else
                if 0x966 <= n < 0x970 then Some(n - 0x966) else None
        else
          if n < 0xAE6 then
            if n < 0xA66 then
              if 0x9E6 <= n < 0x9F0 then Some(n - 0x9E6) else None
            else
              if 0xA66 <= n < 0xA70 then Some(n - 0xA66) else None
          else
            if n < 0xB66 then
              if 0xAE6 <= n < 0xAF0 then Some(n - 0xAE6) else None
            else
              if n < 0xBE6 then
                if 0xB66 <= n < 0xB70 then Some(n - 0xB66) else None
              else
                if 0xBE6 <= n < 0xBF0 then Some(n - 0xBE6) else None
      else
        if n < 0xF20 then
          if n < 0xD66 then
            if n < 0xCE6 then
              if 0xC66 <= n < 0xC70 then Some(n - 0xC66) else None
            else
              if 0xCE6 <= n < 0xCF0 then Some(n - 0xCE6) else None
          else
            if n < 0xE50 then
              if 0xD66 <= n < 0xD70 then Some(n - 0xD66) else None
            else
              if n < 0xED0 then
                if 0xE50 <= n < 0xE5A then Some(n - 0xE50) else None
              else
                if 0xED0 <= n < 0xEDA then Some(n - 0xED0) else None
        else
          if n < 0x1090 then
            if n < 0x1040 then
              if 0xF20 <= n < 0xF2A then Some(n - 0xF20) else None
            else
              if 0x1040 <= n < 0x104A then Some(n - 0x1040) else None
          else
            if n < 0x17E0 then
              if 0x1090 <= n < 0x109A then Some(n - 0x1090) else None
            else
              if n < 0x1810 then
                if 0x17E0 <= n < 0x17EA then Some(n - 0x17E0) else None
              else
                if 0x1810 <= n < 0x181A then Some(n - 0x1810) else None
    else
      if n < 0xA900 then
        if n < 0x1BB0 then
          if n < 0x1A80 then
            if n < 0x19D0 then
              if 0x1946 <= n < 0x1950 then Some(n - 0x1946) else None
            else
              if 0x19D0 <= n < 0x19DA then Some(n - 0x19D0) else None
          else
            if n < 0x1A90 then
              if 0x1A80 <= n < 0x1A8A then Some(n - 0x1A80) else None
            else
              if n < 0x1B50 then
                if 0x1A90 <= n < 0x1A9A then Some(n - 0x1A90) else None
              else
                if 0x1B50 <= n < 0x1B5A then Some(n - 0x1B50) else None
        else
          if n < 0x1C50 then
            if n < 0x1C40 then
              if 0x1BB0 <= n < 0x1BBA then Some(n - 0x1BB0) else None
            else
              if 0x1C40 <= n < 0x1C4A then Some(n - 0x1C40) else None
          else
            if n < 0xA620 then
              if 0x1C50 <= n < 0x1C5A then Some(n - 0x1C50) else None
            else
              if n < 0xA8D0 then
                if 0xA620 <= n < 0xA62A then Some(n - 0xA620) else None
              else
                if 0xA8D0 <= n < 0xA8DA then Some(n - 0xA8D0) else None
      else
        if n < 0x104A0 then
          if n < 0xAA50 then
            if n < 0xA9D0 then
              if 0xA900 <= n < 0xA90A then Some(n - 0xA900) else None
            else
              if 0xA9D0 <= n < 0xA9DA then Some(n - 0xA9D0) else None
          else
            if n < 0xABF0 then
              if 0xAA50 <= n < 0xAA5A then Some(n - 0xAA50) else None
            else
              if n < 0xFF10 then
                if 0xABF0 <= n < 0xABFA then Some(n - 0xABF0) else None
              else
                if 0xFF10 <= n < 0xFF1A then Some(n - 0xFF10) else None
        else
          if n < 0x1D7E2 then
            if n < 0x1D7CE then
              if 0x104A0 <= n < 0x104AA then Some(n - 0x104A0) else None
            else
              if n < 0x1D7D8 then
                if 0x1D7CE <= n < 0x1D7D8 then Some(n - 0x1D7CE) else None
              else
                if 0x1D7D8 <= n < 0x1D7E2 then Some(n - 0x1D7D8) else None
          else
            if n < 0x1D7EC then
              if 0x1D7E2 <= n < 0x1D7EC then Some(n - 0x1D7E2) else None
            else
              if n < 0x1D7F6 then
                if 0x1D7EC <= n < 0x1D7F6 then Some(n - 0x1D7EC) else None
              else
                if 0x1D7F6 <= n < 0x1D800 then Some(n - 0x1D7F6) else None
  }

  /** The ASCII digits are decimal digits with their usual values. */
  lemma {:induction false} DecimalOfDigit(c: char)
    requires IsDigit(c)
    ensures DecimalValue(c) == Some(DigitValue(c))
  {
  }

  /** `U+0661`, ARABIC-INDIC DIGIT ONE, is read as one. */
  lemma {:induction false} DecimalArabicIndicOne()
    ensures DecimalValue('\U{661}') == Some(1)
  {
  }

  predicate AllDecimal(s: string) {
    forall i :: 0 <= i < |s| ==> DecimalValue(s[i]).Some?
  }

  /** No decimal digit lies below `0`, and none but `0`..`9` is ASCII or
      Latin-1: in particular no whitespace character and no dash is one. */
  lemma {:induction false} DecimalFromZero(c: char)
    requires DecimalValue(c).Some?
    ensures '0' <= c
    ensures c as int < 0x100 ==> IsDigit(c)
  {
  }

  // ---------------------------------------------------------------------
  // int() and float() of a unicode text

  /** What `int()` and `float()` read of one character of a `unicode`
      text in Python 2.7, which encodes the text to bytes before parsing
      it: whitespace becomes a space, a decimal digit of any script its
      ASCII digit, any other character from U+0001 to U+00FF stays itself,
      and anything else (U+0000 included) cannot be encoded. */
  function DecimalByte(c: char): (r: Option<char>)
    ensures r.Some? ==> 0 < r.value as int < 0x100 && (IsSpace(r.value) ==> r.value == ' ')
    ensures r.Some? && IsDigit(r.value) ==> DecimalValue(c) == Some(DigitValue(r.value))
    ensures !IsSpace(c) && DecimalValue(c).None? ==> r == if 0 < c as int < 0x100 then Some(c) else None
  {
    if IsSpace(c) then Some(' ')
    else match DecimalValue(c)
      case Some(d) => Some(DigitChar(d))
      case None => if 0 < c as int < 0x100 then Some(c) else None
  }

  /** The whole text encoded so; what cannot be encoded raises
      `UnicodeEncodeError`, a kind of `ValueError`. */
  function EncodeDecimal(s: string): (r: Result<string>)
    ensures r.Ok? <==> forall k {:trigger DecimalByte(s[k])} :: 0 <= k < |s| ==> DecimalByte(s[k]).Some?
    ensures r.Ok? ==> |r.value| == |s|
    ensures r.Ok? ==> forall k {:trigger DecimalByte(s[k])} :: 0 <= k < |s| ==> r.value[k] == DecimalByte(s[k]).value
    ensures r.Ok? ==> IsBytes(r.value)
    ensures r.Raise? ==> r.error == UnicodeEncodeError
  {
    if s == [] then Ok([])
    else
      match DecimalByte(s[0])
      case None => Raise(UnicodeEncodeError)
      case Some(b) =>
        match EncodeDecimal(s[1..])
        case Raise(e) => Raise(e)
        case Ok(rest) => Ok([b] + rest)
  }

  /** Every character is a byte. */
  predicate IsBytes(s: string) {
    forall k :: 0 <= k < |s| ==> s[k] as int < 0x100
  }

  /** A slice of bytes is bytes. */
  lemma {:induction false} BytesSlice(s: string, i: nat, j: nat)
    requires IsBytes(s) && i <= j <= |s|
    ensures IsBytes(s[i..j])
  {
    assert forall k :: 0 <= k < j - i ==> s[i..j][k] == s[i + k];
  }

  /** Text of ASCII digits, dots and signs, with plain spaces, is read as
      it is, and encoding twice changes nothing more. */
  lemma {:induction false} EncodeDecimalPlain(s: string)
    requires forall k :: 0 <= k < |s| ==> 0 < s[k] as int < 0x100 && (IsSpace(s[k]) ==> s[k] == ' ')
    ensures EncodeDecimal(s) == Ok(s)
  {
    if s != [] {
      DecimalLatin1(s[0]);
      EncodeDecimalPlain(s[1..]);
      assert s == [s[0]] + s[1..];
    }
  }

  /** A character of Latin-1 other than whitespace is encoded as itself. */
  lemma {:induction false} DecimalLatin1(c: char)
    requires 0 < c as int < 0x100 && (IsSpace(c) ==> c == ' ')
    ensures DecimalByte(c) == Some(c)
  {
    if DecimalValue(c).Some? {
      DecimalFromZero(c);
    }
  }

  /** Encoding is idempotent: what it gives is read as it is. */
  lemma {:induction false} EncodeDecimalIdempotent(s: string)
    requires EncodeDecimal(s).Ok?
    ensures EncodeDecimal(EncodeDecimal(s).value) == EncodeDecimal(s)
  {
    var b := EncodeDecimal(s).value;
    forall k | 0 <= k < |b|
      ensures 0 < b[k] as int < 0x100 && (IsSpace(b[k]) ==> b[k] == ' ')
    {
      assert b[k] == DecimalByte(s[k]).value;
    }
    EncodeDecimalPlain(b);
  }

  /** `u'\u0661\u0660'`, ten in Arabic-Indic digits, is read as `10`; the
      euro sign cannot be encoded. */
  lemma {:induction false} EncodeDecimalExamples()
    ensures EncodeDecimal("\U{661}\U{660}") == Ok("10")
    ensures EncodeDecimal("1\U{20AC}") == Raise(UnicodeEncodeError)
  {
    var ten := "\U{661}\U{660}";
    assert DecimalByte(ten[0]) == Some('1');
    assert DecimalByte(ten[1]) == Some('0');
    assert ten[1..][1..] == [];
    assert EncodeDecimal(ten[1..][1..]) == Ok([]);
    assert ['0'] + [] == "0" && ['1'] + "0" == "10";
    assert EncodeDecimal(ten[1..]) == Ok("0");
    var euro := "1\U{20AC}";
    assert DecimalByte(euro[1]) == None;
  }

  /** `repr()` of a byte string, as Python 2 writes it in messages: in
      single quotes, or in double quotes when it holds a single quote and
      no double quote; the quote and `\\` escaped, tab, newline and return
      as `\t`, `\n`, `\r`, other bytes outside `' '`..`'~'` as `\xhh`. */
  function ByteRepr(s: string): (r: string)
    requires IsBytes(s)
    ensures |r| >= 2 && r[0] == r[|r| - 1] && (r[0] == '\'' || r[0] == '"')
  {
    var quote := if '\'' in s && '"' !in s then '"' else '\'';
    var body := EscapeBytes(s, quote);
    [quote] + body + [quote]
  }

  function EscapeBytes(s: string, quote: char): (r: string)
    requires IsBytes(s)
    ensures |r| >= |s|
  {
    if s == [] then []
    else EscapeByte(s[0], quote) + EscapeBytes(s[1..], quote)
  }

  function EscapeByte(c: char, quote: char): (r: string)
    requires c as int < 0x100
    ensures |r| >= 1
  {
    if c == quote || c == '\\' then ['\\', c]
    else if c == '\t' then "\\t"
    else if c == '\n' then "\\n"
    else if c == '\r' then "\\r"
    else if c < ' ' || c as int >= 0x7F then "\\x" + [HexDigit(c as int / 16), HexDigit(c as int % 16)]
    else [c]
  }

  function HexDigit(d: int): char
    requires 0 <= d < 16
  {
    if d < 10 then ('0' as int + d) as char else ('a' as int + d - 10) as char
  }

  /** A printable text without quotes or backslashes is shown between
      single quotes as it is. */
  lemma {:induction false} ByteReprPlain(s: string)
    requires forall k :: 0 <= k < |s| ==> ' ' <= s[k] <= '~' && s[k] != '\'' && s[k] != '"' && s[k] != '\\'
    ensures ByteRepr(s) == "'" + s + "'"
  {
    EscapePlain(s);
  }

  lemma {:induction false} EscapePlain(s: string)
    requires forall k :: 0 <= k < |s| ==> ' ' <= s[k] <= '~' && s[k] != '\'' && s[k] != '"' && s[k] != '\\'
    ensures EscapeBytes(s, '\'') == s
  {
    if s != [] {
      EscapePlain(s[1..]);
      assert s == [s[0]] + s[1..];
    }
  }

  /** The first `n` characters, or all of a shorter text: what `%.200s`
      prints of a message argument. */
  function Prefix(s: string, n: nat): (r: string)
    ensures |r| <= n && |r| <= |s| && r == s[..|r|]
    ensures |s| <= n ==> r == s
  {
    if |s| <= n then s else s[..n]
  }

  /** An optional sign and one or more digits. */
  function ParseSignedDigits(t: string): (r: Option<int>)
  {
    var negative := t != [] && t[0] == '-';
    var digits := if t != [] && (t[0] == '+' || t[0] == '-') then t[1..] else t;
    if digits != [] && AllDigits(digits) then
      Some(if negative then -(DigitsValue(digits) as int) else DigitsValue(digits) as int)
    else None
  }

  /** Python 2's reading of a base-10 integer from encoded bytes: an
      optional sign, then, because it skips whitespace again after the sign,
      perhaps spaces, then digits. */
  function ParseIntBytes(t: string): (r: Option<int>)
  {
    if t != [] && (t[0] == '+' || t[0] == '-') then
      var digits := TrimLeft(t[1..]);
      if digits != [] && AllDigits(digits) then
        Some(if t[0] == '-' then -(DigitsValue(digits) as int) else DigitsValue(digits) as int)
      else None
    else ParseSignedDigits(t)
  }

  /** `int(s)` of a `unicode` text in base 10: the text is encoded as
      `EncodeDecimal` does, then read as `IntOfBytes` reads bytes. */
  function PyInt(s: string): (r: Result<int>)
    ensures EncodeDecimal(s).Raise? ==> r == Raise(UnicodeEncodeError)
    ensures EncodeDecimal(s).Ok? ==> r == IntOfBytes(EncodeDecimal(s).value)
  {
    var b :- EncodeDecimal(s);
    IntOfBytes(b)
  }

  /** `int(b)` of bytes in base 10, surrounding whitespace allowed.  The
      message of a refusal shows the bytes from the first that is not
      whitespace, at most 200 of them, as `repr` shows them. */
  function IntOfBytes(b: string): (r: Result<int>)
    requires IsBytes(b)
    ensures r.Ok? <==> ParseIntBytes(Strip(b)).Some?
    ensures r.Ok? ==> r.value == ParseIntBytes(Strip(b)).value
    ensures r.Raise? ==> r.error.ValueError?
  {
    match ParseIntBytes(Strip(b))
    case Some(i) => Ok(i)
    case None =>
      var t := TrimLeft(b);
      BytesSlice(b, |b| - |t|, |b|);
      BytesSlice(t, 0, |Prefix(t, 200)|);
      Raise(ValueError("invalid literal for int() with base 10: " + ByteRepr(Prefix(t, 200))))
  }

  /** `int()` of one byte: a digit is its value; whitespace is skipped
      and leaves nothing to show; any other byte is refused and shown. */
  lemma {:induction false} IntOfByte(b: char)
    requires b as int < 0x100
    ensures IsDigit(b) ==> IntOfBytes([b]) == Ok(DigitValue(b))
    ensures IsSpace(b) ==> IntOfBytes([b]) == Raise(ValueError("invalid literal for int() with base 10: ''"))
    ensures !IsDigit(b) && !IsSpace(b) ==>
              IntOfBytes([b]) == Raise(ValueError("invalid literal for int() with base 10: " + ByteRepr([b])))
  {
    var t := [b];
    if IsSpace(b) {
      assert TrimLeft(t) == [];
      assert Strip(t) == [];
      assert ByteRepr([]) == "''";
    } else {
      assert TrimLeft(t) == t;
      assert TrimRight(t) == t;
      if IsDigit(b) {
        assert t[..|t| - 1] == [];
        assert DigitsValue(t) == DigitValue(b);
      }
    }
  }

  /** The encoding of one character. */
  lemma {:induction false} EncodeDecimalOne(c: char)
    ensures DecimalByte(c).Some? ==> EncodeDecimal([c]) == Ok([DecimalByte(c).value])
  {
    assert [c][0] == c && [c][1..] == [];
    assert EncodeDecimal([c][1..]) == Ok([]);
    if DecimalByte(c).Some? {
      assert [DecimalByte(c).value] + [] == [DecimalByte(c).value];
    }
  }

  /** `int(c)` of one character: the value of a decimal digit of any
      script; `UnicodeEncodeError` for a character that cannot be encoded;
      otherwise `ValueError` with the character as `repr` shows it, or
      nothing for whitespace, which is skipped. */
  lemma {:induction false} PyIntOfChar(c: char)
    ensures DecimalValue(c).Some? ==> PyInt([c]) == Ok(DecimalValue(c).value)
    ensures DecimalValue(c).None? ==> PyInt([c]) == Raise(CharIntError(c))
  {
    EncodeDecimalOne(c);
    if DecimalByte(c).Some? {
      var b := DecimalByte(c).value;
      IntOfByte(b);
      if DecimalValue(c).Some? {
        DecimalFromZero(c);
        DecimalDigitByte(c);
      } else if !IsSpace(c) {
        if IsDigit(c) { DecimalOfDigit(c); }
        assert b == c;
      }
    }
  }

  /** What `int(c)` raises for a character that is not a decimal digit:
      `UnicodeEncodeError` when it cannot be encoded, otherwise the
      `ValueError` that shows its byte. */
  function CharIntError(c: char): (e: Exception)
    requires DecimalValue(c).None?
    ensures e == UnicodeEncodeError <==> DecimalByte(c).None?
    ensures DecimalByte(c).Some? ==>
              e == ValueError("invalid literal for int() with base 10: " + if IsSpace(c) then "''" else ByteRepr([c]))
  {
    match DecimalByte(c)
    case None => UnicodeEncodeError
    case Some(b) => ValueError("invalid literal for int() with base 10: " + if IsSpace(c) then "''" else ByteRepr([b]))
  }

  lemma {:induction false} DecimalDigitByte(c: char)
    requires DecimalValue(c).Some? && !IsSpace(c)
    ensures DecimalByte(c) == Some(DigitChar(DecimalValue(c).value)) && IsDigit(DecimalByte(c).value)
  {
  }

  // ---------------------------------------------------------------------
  // ordering texts

  /** Code-point lexicographic order on texts. */
  predicate TextLe(a: string, b: string) {
    a == [] || (b != [] && (a[0] < b[0] || (a[0] == b[0] && TextLe(a[1..], b[1..]))))
  }

  lemma {:induction false} TextLeTotal(a: string, b: string)
    ensures TextLe(a, b) || TextLe(b, a)
  {
    if a != [] && b != [] && a[0] == b[0] {
      TextLeTotal(a[1..], b[1..]);
    }
  }

  lemma {:induction false} TextLeAntisymmetric(a: string, b: string)
    requires TextLe(a, b) && TextLe(b, a)
    ensures a == b
  {
    if a != [] && b != [] {
      TextLeAntisymmetric(a[1..], b[1..]);
      assert a == [a[0]] + a[1..] && b == [b[0]] + b[1..];
    }
  }

  lemma {:induction false} TextLeTransitive(a: string, b: string, c: string)
    requires TextLe(a, b) && TextLe(b, c)
    ensures TextLe(a, c)
  {
    if a != [] && b != [] && c != [] && a[0] == b[0] && b[0] == c[0] {
      TextLeTransitive(a[1..], b[1..], c[1..]);
    }
  }

  predicate IsLeast(m: string, s: set<string>) {
    m in s && forall x :: x in s ==> TextLe(m, x)
  }

  /** A non-empty finite set of texts has a least element. */
  lemma {:induction false} LeastExists(s: set<string>)
    requires s != {}
    ensures exists m :: IsLeast(m, s)
    decreases |s|
  {
    var y :| y in s;
    if s == {y} {
      TextLeTotal(y, y);
      assert IsLeast(y, s);
    } else {
      var rest := s - {y};
      LeastExists(rest);
      var m :| IsLeast(m, rest);
      TextLeTotal(y, m);
      if TextLe(y, m) {
        forall x | x in s
          ensures TextLe(y, x)
        {
          if x != y {
            TextLeTransitive(y, m, x);
          } else {
            TextLeTotal(y, y);
          }
        }
        assert IsLeast(y, s);
      } else {
        assert IsLeast(m, s);
      }
    }
  }

  /** The least text of a non-empty set. */
  function Least(s: set<string>): (r: string)
    requires s != {}
    ensures IsLeast(r, s)
  {
    LeastExists(s);
    LeastUnique(s);
    var m :| IsLeast(m, s); m
  }

  lemma {:induction false} LeastUnique(s: set<string>)
    ensures forall a, b :: IsLeast(a, s) && IsLeast(b, s) ==> a == b
  {
    forall a, b | IsLeast(a, s) && IsLeast(b, s)
      ensures a == b
    {
      TextLeAntisymmetric(a, b);
    }
  }

  /** The texts of a set in increasing order. */
  function Sorted(s: set<string>): (r: seq<string>)
    decreases |s|
  {
    if s == {} then [] else var m := Least(s); [m] + Sorted(s - {m})
  }

  /** `Sorted` lists each text of the set once, and no other. */
  lemma {:induction false} SortedMembers(s: set<string>)
    ensures |Sorted(s)| == |s|
    ensures forall x :: x in Sorted(s) <==> x in s
    decreases |s|
  {
    if s != {} {
      var m := Least(s);
      SortedMembers(s - {m});
    }
  }
}
