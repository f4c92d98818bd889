/** The text normaliser `_clean_text` of `MessageClassifier`: strip the ends,
    turn every whitespace run into one space, delete every character that is
    not a word character, whitespace or one of `. , ! ? -`, and lower-case.

    Python's Unicode tables (`\s` and `str.strip`, `\w`, `str.lower`) are not
    spelled out: they are a `CharClasses` value, and `Valid` lists the facts
    about them that the lemmas rely on. `str.lower` is modelled one character
    to one character. */
module TextClean {

  /** Python's character tables as `_clean_text` consults them. `isSpace` is
      both `\s` and the set `str.strip()` removes (CPython uses one table for
      both); `isWord` is `\w`; `lower` is `str.lower` on one character. */
  datatype CharClasses = CharClasses(isSpace: char -> bool, isWord: char -> bool, lower: char -> char)

  /** Python's whitespace among the first 128 code points */
  predicate AsciiSpace(c: char) {
    c == ' ' || c == '\t' || c == '\n' || c == '\r' || c == '\U{0B}' || c == '\U{0C}'
    || ('\U{1C}' <= c <= '\U{1F}')
  }

  /** Python's `\w` among the first 128 code points */
  predicate AsciiWord(c: char) {
    ('a' <= c <= 'z') || ('A' <= c <= 'Z') || ('0' <= c <= '9') || c == '_'
  }

  /** Python's `str.lower` on the first 128 code points */
  function AsciiLower(c: char): char {
    if 'A' <= c <= 'Z' then (c as int + 32) as char else c
  }

  /** The facts about the tables that the lemmas below use: exact on ASCII,
      and beyond ASCII only what holds of CPython's tables for characters
      whose lower case is a single character. */
  ghost predicate Valid(u: CharClasses) {
    && (forall c: char :: c < '\U{80}' ==> (u.isSpace(c) <==> AsciiSpace(c)))
    && (forall c: char :: c < '\U{80}' ==> (u.isWord(c) <==> AsciiWord(c)))
    && (forall c: char :: c < '\U{80}' ==> u.lower(c) == AsciiLower(c))
    && (forall c: char :: u.isSpace(c) ==> !u.isWord(c))
    && (forall c: char :: u.isSpace(u.lower(c)) == u.isSpace(c))
    && (forall c: char :: u.isWord(c) ==> u.isWord(u.lower(c)))
    && (forall c: char :: u.lower(u.lower(c)) == u.lower(c))
  }

  /** The ASCII-only reading of the tables: nothing beyond ASCII is
      whitespace or a word character, and `lower` leaves it alone. */
  const AsciiOnly: CharClasses := CharClasses(AsciiSpace, AsciiWord, AsciiLower)

  /** The punctuation the second substitution keeps besides `\w` and `\s` */
  const Punctuation: string := ".,!?-"

  /** Characters the class `[^\w\s\.,!?-]` does not match, so are kept */
  predicate Kept(u: CharClasses, c: char) {
    u.isWord(c) || u.isSpace(c) || c in Punctuation
  }

  /** Whitespace becomes the single space, everything else is left alone */
  function Blank(u: CharClasses, c: char): char {
    if u.isSpace(c) then ' ' else c
  }

  /** What an input character turns into when it survives `_clean_text` */
  function Canon(u: CharClasses, c: char): char {
    u.lower(Blank(u, c))
  }

  // ---------------------------------------------------------------------------
  // The four steps
  // ---------------------------------------------------------------------------

  /** Drops leading whitespace (the left half of `str.strip()`) */
  function TrimStart(u: CharClasses, s: string): (r: string)
    ensures |r| <= |s| && r == s[|s| - |r|..]
    ensures forall i :: 0 <= i < |s| - |r| ==> u.isSpace(s[i])
    ensures r == [] || !u.isSpace(r[0])
    decreases |s|
  {
    if |s| > 0 && u.isSpace(s[0]) then TrimStart(u, s[1..]) else s
  }

  /** Drops trailing whitespace (the right half of `str.strip()`) */
  function TrimEnd(u: CharClasses, s: string): (r: string)
    ensures |r| <= |s| && r == s[..|r|]
    ensures forall i :: |r| <= i < |s| ==> u.isSpace(s[i])
    ensures r == [] || !u.isSpace(r[|r| - 1])
    decreases |s|
  {
    if |s| > 0 && u.isSpace(s[|s| - 1]) then TrimEnd(u, s[..|s| - 1]) else s
  }

  /** `str.strip()`: whitespace removed from both ends */
  function Strip(u: CharClasses, s: string): (r: string)
    ensures |r| <= |s|
    ensures r == [] || (!u.isSpace(r[0]) && !u.isSpace(r[|r| - 1]))
  {
    TrimEnd(u, TrimStart(u, s))
  }

  /** `re.sub(r'\s+', ' ', s)`: every maximal whitespace run becomes one space */
  function Collapse(u: CharClasses, s: string): (r: string)
    ensures |r| <= |s|
    decreases |s|
  {
    if |s| == 0 then []
    else if u.isSpace(s[0]) then [' '] + Collapse(u, TrimStart(u, s))
    else [s[0]] + Collapse(u, s[1..])
  }

  /** `re.sub(r'[^\w\s\.,!?-]', '', s)`: keeps exactly the kept characters */
  function Filter(u: CharClasses, s: string): (r: string)
    ensures |r| <= |s|
    ensures forall i :: 0 <= i < |r| ==> Kept(u, r[i])
  {
    if |s| == 0 then []
    else if Kept(u, s[0]) then [s[0]] + Filter(u, s[1..])
    else Filter(u, s[1..])
  }

  /** `str.lower()` under the one-character-to-one-character reading */
  function Lower(u: CharClasses, s: string): (r: string)
    ensures |r| == |s|
    ensures forall i :: 0 <= i < |s| ==> r[i] == u.lower(s[i])
  {
    seq(|s|, i requires 0 <= i < |s| => u.lower(s[i]))
  }

  /** `_clean_text` */
  function CleanText(u: CharClasses, text: string): (r: string)
    ensures |r| <= |text|
  {
    Lower(u, Filter(u, Collapse(u, Strip(u, text))))
  }

  // ---------------------------------------------------------------------------
  // Helpers about the non-whitespace content of a string
  // ---------------------------------------------------------------------------

  /** The characters of `s` that are not whitespace, in order */
  function NonSpace(u: CharClasses, s: string): string
  {
    if |s| == 0 then []
    else (if u.isSpace(s[0]) then [] else [s[0]]) + NonSpace(u, s[1..])
  }

  lemma {:induction false} NonSpaceAppend(u: CharClasses, a: string, b: string)
    ensures NonSpace(u, a + b) == NonSpace(u, a) + NonSpace(u, b)
  {
    if |a| == 0 {
      assert a + b == b;
    } else {
      assert (a + b)[1..] == a[1..] + b;
      NonSpaceAppend(u, a[1..], b);
    }
  }

  lemma NonSpaceOfSpaces(u: CharClasses, s: string)
    requires forall i :: 0 <= i < |s| ==> u.isSpace(s[i])
    ensures NonSpace(u, s) == []
  {
  }
}
