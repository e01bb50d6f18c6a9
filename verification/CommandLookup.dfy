/** Command lookup: the prefix scan over the command table against a dictionary lookup of the first word. */
module CommandLookup {
  import opened Bytes

  /** A string in memory, up to and including its terminating NUL. */
  type CString = s: seq<byte> | |s| > 0 && s[|s| - 1] == 0 && (forall i :: 0 <= i < |s| - 1 ==> s[i] != 0)
    witness [0]

  /** The characters of a string. */
  function Chars(s: CString): seq<byte> { s[..|s| - 1] }

  predicate IsUpper(ch: byte) { 'A' as int <= ch <= 'Z' as int }

  /** is_char */
  predicate IsChar(ch: byte) {
    || 'a' as int <= ch <= 'z' as int
    || IsUpper(ch)
    || '0' as int <= ch <= '9' as int
    || ch == '*' as int || ch == '#' as int
  }

  function Lower(ch: byte): byte {
    if IsUpper(ch) then ch + 32 else ch
  }

  function Folded(s: seq<byte>): (r: seq<byte>)
    ensures |r| == |s| && forall i :: 0 <= i < |s| ==> r[i] == Lower(s[i])
  {
    seq(|s|, i requires 0 <= i < |s| => Lower(s[i]))
  }

  /** Equal up to the case of letters. */
  predicate SameName(a: seq<byte>, b: seq<byte>) { Folded(a) == Folded(b) }

  predicate AllChars(s: seq<byte>) { forall i :: 0 <= i < |s| ==> IsChar(s[i]) }

  /** The maximal word at the beginning of a text. */
  function Token(s: seq<byte>): (t: seq<byte>)
    ensures t <= s && AllChars(t)
    ensures |t| < |s| ==> !IsChar(s[|t|])
  {
    if s == [] || !IsChar(s[0]) then [] else
      assert s == [s[0]] + s[1..];
      [s[0]] + Token(s[1..])
  }

  // ----- comparison

  /** At most the first `len` characters. */
  function Take(s: CString, len: nat): seq<byte> {
    if len < |s| then s[..len] else Chars(s)
  }

  /** The difference of two characters as the 8-bit result. */
  function Difference(x: int, y: int): byte { (x - y) % 256 }

  /** strnicmp with its 8-bit length: zero exactly when the first `len` characters agree up to case; otherwise
      the difference, as an 8-bit value, at the first place where they do not. */
  method Strnicmp(a: CString, b: CString, len: byte) returns (r: byte)
    ensures r == 0 <==> SameName(Take(a, len), Take(b, len))
    ensures r != 0 ==> exists k :: 0 <= k < |a| && k < |b| && k < len && SameName(a[..k], b[..k])
                         && Lower(a[k]) != Lower(b[k]) && r == Difference(a[k], b[k])
  {
    hide SameName, Lower, Difference;
    var i := 0;
    NothingDiffers();
    assert a[..0] == [] && b[..0] == [];
    while i < len
      invariant i <= len && i < |a| && i < |b|
      invariant SameName(a[..i], b[..i])
      decreases len - i
    {
      var x, y := a[i], b[i];
      EqualUpToCase(x, y);
      if x == y {
        if x == 0 {
          assert Take(a, len) == a[..i] && Take(b, len) == b[..i];
          return 0;
        }
      } else if !(IsUpper(x) && x + 32 == y) && !(IsUpper(y) && y + 32 == x) {
        DifferAt(a, b, len, i);
        return NonZeroDifference(x, y);
      }
      OneMoreAgrees(a, b, i);
      i := i + 1;
    }
    assert Take(a, len) == a[..len] && Take(b, len) == b[..len];
    return 0;
  }

  function NonZeroDifference(x: byte, y: byte): (r: byte)
    requires x != y
    ensures r == Difference(x, y) != 0
  {
    Difference(x, y)
  }

  lemma NothingDiffers()
    ensures SameName([], [])
  {
  }

  lemma EqualUpToCase(x: byte, y: byte)
    ensures Lower(x) == Lower(y) <==> x == y || (IsUpper(x) && x + 32 == y) || (IsUpper(y) && y + 32 == x)
  {
  }

  lemma OneMoreAgrees(a: CString, b: CString, i: nat)
    requires i < |a| && i < |b| && SameName(a[..i], b[..i]) && Lower(a[i]) == Lower(b[i])
    ensures SameName(a[..i + 1], b[..i + 1])
  {
    assert forall k :: 0 <= k < i ==> Folded(a[..i])[k] == Folded(b[..i])[k];
    assert forall k :: 0 <= k < i ==> Lower(a[k]) == Lower(b[k]);
  }

  lemma DifferAt(a: CString, b: CString, len: nat, i: nat)
    requires i < len && i < |a| && i < |b| && Lower(a[i]) != Lower(b[i])
    ensures !SameName(Take(a, len), Take(b, len))
  {
  }

  // ----- lookup

  /** A table row; its handlers are not part of this model. */
  datatype Entry = Entry(text: CString) | Null

  /** The length of a name as the scan keeps it, in 16 bits. */
  function ScanLength(name: seq<byte>): nat { |name| % 0x1_0000 }

  /** The length it compares, in 8 bits. */
  function ComparedLength(name: seq<byte>): (n: nat)
    ensures n < 256 && n <= ScanLength(name) <= |name|
  {
    ScanLength(name) % 256
  }

  /** Rows at which the scan stops. */
  predicate EndsTable(e: Entry) { e.Null? || ScanLength(Chars(e.text)) == 0 }

  /** A table as C sees it: one of its rows ends it. */
  ghost predicate Terminated(table: seq<Entry>) {
    && |table| <= 0x1_0000
    && exists n :: 0 <= n < |table| && EndsTable(table[n])
  }

  /** The names before the end of the table. */
  function Names(table: seq<Entry>): (r: seq<seq<byte>>)
    ensures |r| <= |table|
    ensures |r| < |table| ==> EndsTable(table[|r|])
    ensures forall i :: 0 <= i < |r| ==> !EndsTable(table[i]) && r[i] == Chars(table[i].text)
  {
    if table == [] || EndsTable(table[0]) then [] else [Chars(table[0].text)] + Names(table[1..])
  }

  /** What the scan tests: the text begins with the name, as far as that is compared, and the name ends there. */
  predicate Matches(name: seq<byte>, text: CString) {
    var l, n := ScanLength(name), ComparedLength(name);
    l < |text| && SameName(text[..n], name[..n]) && !IsChar(text[l])
  }

  /** The first matching name, or -1. */
  function Found(names: seq<seq<byte>>, text: CString): (row: int)
    ensures -1 <= row < |names|
    ensures row >= 0 ==> Matches(names[row], text)
    ensures forall i :: 0 <= i < (if row >= 0 then row else |names|) ==> !Matches(names[i], text)
  {
    if names == [] then -1
    else if Matches(names[0], text) then 0
    else var r := Found(names[1..], text); if r < 0 then -1 else r + 1
  }

  /** The byte after the name is inside the text: the comparison ensures it for names of less than 256 characters,
      and for others the caller has to. */
  predicate Readable(name: seq<byte>, text: CString) {
    ScanLength(name) < 256 || ScanLength(name) < |text|
  }

  /** _find_cmd: the first matching row, and the rest of the text. */
  method FindCmd(table: seq<Entry>, text: CString) returns (row: int, rest: CString)
    requires Terminated(table)
    requires forall i :: 0 <= i < |Names(table)| ==> Readable(Names(table)[i], text)
    ensures row == Found(Names(table), text)
    ensures row >= 0 ==> rest == text[ScanLength(Names(table)[row])..]
    ensures row < 0 ==> rest == text
  {
    hide SameName, IsChar, Take, Matches, Found, Terminated, ScanLength, ComparedLength, Chars, Names, Readable;
    var i := 0;
    NamesEnd(table);
    while true
      invariant i <= |Names(table)| < |table|
      invariant forall j :: 0 <= j < i ==> !Matches(Names(table)[j], text)
      decreases |table| - i
    {
      NameOrEnd(table, i);
      if table[i].Null? {
        FirstMatch(Names(table), text, -1);
        return -1, text;
      }
      var l := ScanLength(Chars(table[i].text));
      if l == 0 {
        FirstMatch(Names(table), text, -1);
        return -1, text;
      }
      CompareMatches(table[i].text, text);
      var cmp := Strnicmp(text, table[i].text, ComparedLength(Chars(table[i].text)));
      if cmp == 0 {
        if !IsChar(text[l]) {
          FirstMatch(Names(table), text, i);
          return i, text[l..];
        }
      }
      i := i + 1;
    }
  }

  lemma NameOrEnd(table: seq<Entry>, i: nat)
    requires i <= |Names(table)| < |table|
    ensures i == |Names(table)| <==> EndsTable(table[i])
    ensures i < |Names(table)| ==> Names(table)[i] == Chars(table[i].text)
  {
  }

  /** When the compared characters agree, the text reaches at least to the character tested next. */
  lemma CompareMatches(name: CString, text: CString)
    requires Readable(Chars(name), text)
    ensures var l, n := ScanLength(Chars(name)), ComparedLength(Chars(name));
            && (SameName(Take(text, n), Take(name, n)) ==> l < |text|)
            && (Matches(Chars(name), text) <==>
                  SameName(Take(text, n), Take(name, n)) && l < |text| && !IsChar(text[l]))
  {
    var l, n := ScanLength(Chars(name)), ComparedLength(Chars(name));
    assert Take(name, n) == Chars(name)[..n];
    if SameName(Take(text, n), Take(name, n)) {
      SameLength(Take(text, n), Take(name, n));
    }
  }

  lemma FirstMatch(names: seq<seq<byte>>, text: CString, row: int)
    requires -1 <= row < |names| && (row >= 0 ==> Matches(names[row], text))
    requires forall i :: 0 <= i < (if row >= 0 then row else |names|) ==> !Matches(names[i], text)
    ensures Found(names, text) == row
  {
  }

  lemma NamesEnd(table: seq<Entry>)
    requires Terminated(table)
    ensures |Names(table)| < |table|
  {
  }

  lemma SameLength(a: seq<byte>, b: seq<byte>)
    requires SameName(a, b)
    ensures |a| == |b|
  {
  }

  /** A name the scan treats as a word: of word characters, and compared in its whole length. */
  predicate IsWord(name: seq<byte>) { AllChars(name) && |name| < 256 }

  /** For such a name the prefix test is equality with the first word of the text. */
  lemma MatchIsTokenEquality(name: seq<byte>, text: CString)
    requires IsWord(name)
    ensures Matches(name, text) <==> SameName(name, Token(text))
  {
    var l := |name|;
    assert ScanLength(name) == l && ComparedLength(name) == l && name[..l] == name;
    hide IsChar, ScanLength, ComparedLength, Folded;
    if Matches(name, text) {
      SameCharacters(text[..l], name);
      TokenUnique(text, l);
    }
    if SameName(name, Token(text)) {
      SameLength(name, Token(text));
      TokenEnds(text);
      assert text[..l] == Token(text);
    }
  }

  lemma TokenUnique(s: seq<byte>, n: nat)
    requires n < |s| && AllChars(s[..n]) && !IsChar(s[n])
    ensures Token(s) == s[..n]
  {
    var t := Token(s);
    assert forall i :: 0 <= i < n ==> s[i] == s[..n][i];
    assert forall i :: 0 <= i < |t| ==> s[i] == t[i];
    assert |t| == n;
  }

  /** A word ends before the NUL at the latest. */
  lemma TokenEnds(text: CString)
    ensures |Token(text)| < |text|
  {
    var t := Token(text);
    assert forall i :: 0 <= i < |t| ==> text[i] == t[i];
    assert !IsChar(text[|text| - 1]);
  }

  lemma SameCharacters(a: seq<byte>, b: seq<byte>)
    requires SameName(a, b)
    ensures |a| == |b| && (AllChars(a) <==> AllChars(b))
  {
    assert forall i :: 0 <= i < |a| ==> Folded(a)[i] == Folded(b)[i];
    assert forall i :: 0 <= i < |a| ==> Lower(a[i]) == Lower(b[i]);
  }

  /** That holds for all texts exactly when the name is of word characters and shorter than 256. */
  lemma NamesMustBeWords(name: seq<byte>)
    requires 0 !in name
    ensures (forall text: CString :: Matches(name, text) <==> SameName(name, Token(text))) <==> IsWord(name)
  {
    if IsWord(name) {
      forall text: CString ensures Matches(name, text) <==> SameName(name, Token(text)) {
        MatchIsTokenEquality(name, text);
      }
    } else {
      var l, n := ScanLength(name), ComparedLength(name);
      var text: CString := name[..n] + seq(l - n, _ => 32) + [0];
      assert text[..n] == name[..n] && Matches(name, text);
      if SameName(name, Token(text)) {
        SameCharacters(name, Token(text));
        TokenStops(text, n, l);
        assert false;
      }
    }
  }

  lemma TokenStops(text: CString, n: nat, l: nat)
    requires n <= l == |text| - 1 && forall i :: n <= i < l ==> text[i] == 32
    ensures |Token(text)| <= n
  {
    var t := Token(text);
    assert forall i :: 0 <= i < |t| ==> IsChar(t[i]) && t[i] == text[i];
    assert !IsChar(text[n]);
  }

  /** Names of 256 characters and more: the scan keeps their length modulo 65536, compares only modulo 256 of them, and
      stops at a name whose length is a multiple of 65536. */
  lemma LengthsWrap(name: CString, blocks: nat, rest: nat, low: nat)
    requires |Chars(name)| == 65536 * blocks + 256 * rest + low && rest < 256 && low < 256
    ensures ScanLength(Chars(name)) == 256 * rest + low && ComparedLength(Chars(name)) == low
    ensures EndsTable(Entry(name)) <==> rest == low == 0
    ensures EndsTable(Null)
  {
    assert ScanLength(Chars(name)) == 256 * rest + low;
  }

  /** No text is too short for a word. */
  lemma WordsAreReadable(name: seq<byte>, text: CString)
    requires IsWord(name)
    ensures Readable(name, text)
  {
  }

  // ----- what case is

  /** The letters are 65 to 90 and 97 to 122, and 32 apart; nothing else has a case. */
  lemma Letters(k: nat, ch: byte)
    requires k < 26
    ensures Lower(65 + k) == 97 + k == Lower(97 + k) && IsChar(65 + k) && IsChar(97 + k)
    ensures ch < 65 || ch > 90 ==> Lower(ch) == ch
    ensures IsChar(ch) <==> 65 <= ch <= 90 || 97 <= ch <= 122 || 48 <= ch <= 57 || ch == 42 || ch == 35
  {
  }

  /** The same byte, or the same letter in the other case. */
  predicate SameLetter(x: byte, y: byte) {
    x == y || (65 <= x <= 90 && y == x + 32) || (65 <= y <= 90 && x == y + 32)
  }

  predicate EqualButCase(a: seq<byte>, b: seq<byte>) {
    |a| == |b| && forall i :: 0 <= i < |a| ==> SameLetter(a[i], b[i])
  }

  /** Equal up to case means just that, byte by byte. */
  lemma SameNameIff(a: seq<byte>, b: seq<byte>)
    ensures SameName(a, b) <==> EqualButCase(a, b)
  {
    if SameName(a, b) {
      forall i | 0 <= i < |a| ensures SameLetter(a[i], b[i]) {
        assert Folded(a)[i] == Folded(b)[i];
      }
    }
  }

  /** Whatever letters of the text change their case: the same row is found, and the rest of the text is as long. */
  lemma CaseDoesNotMatter(names: seq<seq<byte>>, a: CString, b: CString)
    requires EqualButCase(a, b)
    ensures Found(names, a) == Found(names, b)
    decreases |names|
  {
    hide Matches, EqualButCase;
    if names != [] {
      MatchesIgnoresCase(names[0], a, b);
      CaseDoesNotMatter(names[1..], a, b);
    }
  }

  lemma MatchesIgnoresCase(name: seq<byte>, a: CString, b: CString)
    requires EqualButCase(a, b)
    ensures Matches(name, a) <==> Matches(name, b)
  {
    hide SameName, IsChar;
    var l, n := ScanLength(name), ComparedLength(name);
    if l < |a| {
      SameNameIff(a[..n], b[..n]);
      SameNameIff(b[..n], a[..n]);
      SameLetterSameKind(a[l], b[l]);
      if SameName(a[..n], name[..n]) { SameNameFollows(a[..n], b[..n], name[..n]); }
      if SameName(b[..n], name[..n]) { SameNameFollows(b[..n], a[..n], name[..n]); }
    }
  }

  lemma SameLetterSameKind(x: byte, y: byte)
    requires SameLetter(x, y)
    ensures IsChar(x) <==> IsChar(y)
  {
  }

  lemma SameNameFollows(a: seq<byte>, b: seq<byte>, name: seq<byte>)
    requires SameName(a, b) && SameName(a, name)
    ensures SameName(b, name)
  {
  }

  /** No two names agree up to case. */
  ghost predicate Distinct(names: seq<seq<byte>>) {
    forall i, j :: 0 <= i < j < |names| ==> !SameName(names[i], names[j])
  }

  ghost predicate Words(names: seq<seq<byte>>) {
    forall i :: 0 <= i < |names| ==> IsWord(names[i])
  }

  /** The scan is a dictionary lookup: row i is found exactly when its name is the first word of the text
      up to case, none is found exactly when no name is; the text then moves on by exactly that word. */
  lemma FoundIsLookup(names: seq<seq<byte>>, text: CString)
    requires Words(names) && Distinct(names)
    ensures forall i :: 0 <= i < |names| ==> (SameName(names[i], Token(text)) <==> i == Found(names, text))
    ensures Found(names, text) >= 0 ==> |names[Found(names, text)]| == |Token(text)|
  {
    hide SameName, IsChar;
    var row := Found(names, text);
    forall i | 0 <= i < |names| ensures SameName(names[i], Token(text)) <==> i == row {
      MatchIsTokenEquality(names[i], text);
      if row >= 0 { MatchIsTokenEquality(names[row], text); }
      if i > row >= 0 && SameName(names[i], Token(text)) {
        SameNameJoins(names[row], Token(text), names[i]);
      }
    }
    if row >= 0 {
      SameLength(names[row], Token(text));
    }
  }

  lemma SameNameJoins(a: seq<byte>, b: seq<byte>, c: seq<byte>)
    requires SameName(a, b) && SameName(c, b)
    ensures SameName(a, c)
  {
  }

  /** Two tables with the same distinct words, in whatever order, find the same name. */
  lemma OrderDoesNotMatter(a: seq<seq<byte>>, b: seq<seq<byte>>, text: CString)
    requires Words(a) && Words(b) && Distinct(a) && Distinct(b)
    requires forall name :: name in a <==> name in b
    ensures Found(a, text) < 0 <==> Found(b, text) < 0
    ensures Found(a, text) >= 0 ==> a[Found(a, text)] == b[Found(b, text)]
  {
    hide SameName, IsChar, IsWord, Token, Matches, Found;
    FoundInOther(a, b, text);
    FoundInOther(b, a, text);
    var i, j := Found(a, text), Found(b, text);
    if i >= 0 && j >= 0 {
      MatchIsTokenEquality(a[i], text);
      MatchIsTokenEquality(b[j], text);
      SameNameJoins(a[i], Token(text), b[j]);
      assert b[j] in a;
    }
  }

  lemma FoundInOther(a: seq<seq<byte>>, b: seq<seq<byte>>, text: CString)
    requires forall name :: name in a ==> name in b
    ensures Found(a, text) >= 0 ==> Found(b, text) >= 0
  {
    var i := Found(a, text);
    if i >= 0 {
      assert a[i] in b;
    }
  }
}
