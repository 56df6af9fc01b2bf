/** The few PHP language and library semantics the action depends on:
    `empty()` on strings and array keys, `preg_match_all('/\d/', ...)` and
    `preg_replace('/\s+/', '', ...)`. */
module Php {

  datatype Option<+T> = None | Some(value: T)

  /** A PHP array key: an integer or a string. */
  datatype Key = IntKey(i: int) | StrKey(s: string)

  /** `empty($v)` for a value that is a string or null: null, "" and "0" are
      empty, so emptiness is decided by the value's string conversion. */
  function Empty(v: Option<string>): (r: bool)
    ensures r <==> AsString(v) == "" || AsString(v) == "0"
  {
    v.None? || v.value == "" || v.value == "0"
  }

  /** `empty($key)` for an array key: the integer 0, "" and "0" are empty; a
      string key is empty exactly when it is an empty value. */
  function KeyEmpty(k: Key): (r: bool)
    ensures k.IntKey? ==> (r <==> k.i == 0)
    ensures k.StrKey? ==> (r <==> Empty(Some(k.s)))
  {
    match k
    case IntKey(i) => i == 0
    case StrKey(s) => s == "" || s == "0"
  }

  /** `$m[$k]` on a string-valued array: null when the key is absent. */
  function Lookup(m: map<string, string>, k: string): (v: Option<string>)
    ensures v.Some? <==> k in m
    ensures v.Some? ==> v.value == m[k]
  {
    if k in m then Some(m[k]) else None
  }

  /** String conversion of a string-or-null value: null becomes "". */
  function AsString(v: Option<string>): string
  {
    if v.Some? then v.value else ""
  }

  /** `\d` of PCRE without the `u` modifier: the ASCII decimal digits. */
  predicate IsDigit(c: char)
  {
    '0' <= c <= '9'
  }

  /** `\s` of PCRE without the `u` modifier: space, tab, line feed,
      vertical tab, form feed and carriage return. */
  predicate IsSpace(c: char)
  {
    c == ' ' || c == '\t' || c == '\n' || c == '\U{B}' || c == '\U{C}' || c == '\r'
  }

  /** `preg_match_all('/\d/', s)`: the number of digit characters in `s`. */
  function DigitCount(s: string): (n: nat)
    ensures n <= |s|
    ensures n == 0 <==> forall i :: 0 <= i < |s| ==> !IsDigit(s[i])
  {
    if s == [] then 0
    else DigitCount(s[..|s| - 1]) + (if IsDigit(s[|s| - 1]) then 1 else 0)
  }

  /** Counting digits distributes over concatenation. */
  lemma {:induction false} DigitCountAppend(a: string, b: string)
    ensures DigitCount(a + b) == DigitCount(a) + DigitCount(b)
    decreases |b|
  {
    if b == [] {
      assert a + b == a;
    } else {
      var b' := b[..|b| - 1];
      assert (a + b)[..|a + b| - 1] == a + b';
      DigitCountAppend(a, b');
    }
  }

  /** Characters other than digits do not change the count, wherever they stand. */
  lemma NonDigitIgnored(a: string, c: char, b: string)
    requires !IsDigit(c)
    ensures DigitCount(a + [c] + b) == DigitCount(a + b)
  {
    DigitCountAppend(a + [c], b);
    DigitCountAppend(a, [c]);
    DigitCountAppend(a, b);
    assert [c][..0] == [];
  }

  /** The ten digit characters, as an independent description of `\d`. */
  function Occurrences(m: multiset<char>): nat
  {
    m['0'] + m['1'] + m['2'] + m['3'] + m['4'] + m['5'] + m['6'] + m['7'] + m['8'] + m['9']
  }

  /** The count is the number of occurrences of the ten digit characters:
      it depends only on which characters occur, not on their order. */
  lemma {:induction false} DigitCountIsOccurrences(s: string)
    ensures DigitCount(s) == Occurrences(multiset(s))
    decreases |s|
  {
    if s != [] {
      var s', c := s[..|s| - 1], s[|s| - 1];
      assert s == s' + [c];
      assert multiset(s) == multiset(s') + multiset{c};
      DigitCountIsOccurrences(s');
      OccurrencesAdd(multiset(s'), c);
    }
  }

  lemma OccurrencesAdd(m: multiset<char>, c: char)
    ensures Occurrences(m + multiset{c}) == Occurrences(m) + (if IsDigit(c) then 1 else 0)
  {
  }

  /** `preg_replace('/\s+/', '', s)`: `s` with every whitespace character removed. */
  function StripWhitespace(s: string): (r: string)
    ensures |r| <= |s|
    ensures forall i :: 0 <= i < |r| ==> !IsSpace(r[i])
  {
    if s == [] then []
    else StripWhitespace(s[..|s| - 1]) + (if IsSpace(s[|s| - 1]) then [] else [s[|s| - 1]])
  }

  /** Removing whitespace distributes over concatenation, so it keeps every
      other character in its order. */
  lemma {:induction false} StripWhitespaceAppend(a: string, b: string)
    ensures StripWhitespace(a + b) == StripWhitespace(a) + StripWhitespace(b)
    decreases |b|
  {
    if b == [] {
      assert a + b == a;
    } else {
      var b' := b[..|b| - 1];
      assert (a + b)[..|a + b| - 1] == a + b';
      StripWhitespaceAppend(a, b');
    }
  }

  /** A string without whitespace is left as it is, so stripping is idempotent. */
  lemma {:induction false} StripWhitespaceFixes(s: string)
    requires forall i :: 0 <= i < |s| ==> !IsSpace(s[i])
    ensures StripWhitespace(s) == s
    decreases |s|
  {
    if s != [] {
      StripWhitespaceFixes(s[..|s| - 1]);
    }
  }
}
