/**
 * The two string operations the reports apply to field values:
 * Python's `str.strip()` (province names, the deceased flag) and the test
 * `fallecido.strip().upper() == 'SI'` of the mortality report.
 */
module Text {

  /** The characters for which Python's `str.isspace()` holds: those `str.strip()` removes. */
  predicate IsSpace(c: char)
  {
    ('\t' <= c <= '\r') || ('\U{1C}' <= c <= '\U{1F}') || c == ' ' || c == '\U{85}' || c == '\U{A0}'
    || c == '\U{1680}' || ('\U{2000}' <= c <= '\U{200A}') || c == '\U{2028}' || c == '\U{2029}'
    || c == '\U{202F}' || c == '\U{205F}' || c == '\U{3000}'
  }

  /** `s.lstrip()` */
  function StripStart(s: string): string
  {
    if s != [] && IsSpace(s[0]) then StripStart(s[1..]) else s
  }

  /** `s.lstrip()` keeps a suffix of `s` that does not start with whitespace, and drops only whitespace. */
  lemma {:induction false} StripStartDropsSpaces(s: string)
    ensures var r := StripStart(s);
      && |r| <= |s| && r == s[|s| - |r|..]
      && (r == [] || !IsSpace(r[0]))
      && forall i :: 0 <= i < |s| - |r| ==> IsSpace(s[i])
  {
    if s != [] && IsSpace(s[0]) {
      StripStartDropsSpaces(s[1..]);
    }
  }

  /** `s.rstrip()` */
  function StripEnd(s: string): string
  {
    if s != [] && IsSpace(s[|s| - 1]) then StripEnd(s[..|s| - 1]) else s
  }

  /** `s.rstrip()` keeps a prefix of `s` that does not end with whitespace, and drops only whitespace. */
  lemma {:induction false} StripEndDropsSpaces(s: string)
    ensures var r := StripEnd(s);
      && |r| <= |s| && r == s[..|r|]
      && (r == [] || !IsSpace(r[|r| - 1]))
      && forall i :: |r| <= i < |s| ==> IsSpace(s[i])
  {
    if s != [] && IsSpace(s[|s| - 1]) {
      StripEndDropsSpaces(s[..|s| - 1]);
    }
  }

  /** `s[i..j]` is what remains of `s` once the whitespace before `i` and from `j` on is dropped. */
  predicate StripsTo(s: string, i: int, j: int)
  {
    0 <= i <= j <= |s|
    && (forall k :: 0 <= k < i ==> IsSpace(s[k]))
    && (forall k :: j <= k < |s| ==> IsSpace(s[k]))
    && (i == j || (!IsSpace(s[i]) && !IsSpace(s[j - 1])))
  }

  /** `s.strip()`: drop whitespace at both ends. */
  function Strip(s: string): string
  {
    StripEnd(StripStart(s))
  }

  /** `s.strip()` is the slice of `s` left after dropping whitespace at both ends. */
  lemma StripIsSlice(s: string)
    ensures exists i, j :: StripsTo(s, i, j) && Strip(s) == s[i..j]
  {
    var t := StripStart(s);
    var r := StripEnd(t);
    StripStartDropsSpaces(s);
    StripEndDropsSpaces(t);
    var i := |s| - |t|;
    assert r == s[i..i + |r|];
    assert StripsTo(s, i, i + |r|);
  }

  /** Stripping twice strips nothing more. */
  lemma StripIdempotent(s: string)
    ensures Strip(Strip(s)) == Strip(s)
  {
    var r := Strip(s);
    StripStartDropsSpaces(s);
    StripEndDropsSpaces(StripStart(s));
    if r != [] {
      assert StripStart(r) == r;
      assert StripEnd(r) == r;
    }
  }

  /** The characters whose Python upper-case form is the single letter 'S'. */
  predicate UpperIsS(c: char)
  {
    c == 'S' || c == 's' || c == '\U{17F}'
  }

  /** The characters whose Python upper-case form is the single letter 'I'. */
  predicate UpperIsI(c: char)
  {
    c == 'I' || c == 'i' || c == '\U{131}'
  }

  /** `flag.strip().upper() == 'SI'`: the deceased flag reads "yes". */
  predicate IsYesFlag(flag: string)
  {
    var t := Strip(flag);
    |t| == 2 && UpperIsS(t[0]) && UpperIsI(t[1])
  }

  /** Once whitespace is dropped at both ends, what remains is unique when it is not empty. */
  lemma StripsToUnique(s: string, i: int, j: int, i2: int, j2: int)
    requires StripsTo(s, i, j) && StripsTo(s, i2, j2) && i < j
    ensures i2 == i && j2 == j
  {
  }

  /** The flag at index `i` is two letters reading "SI" in any case, with only whitespace around them. */
  predicate YesAt(flag: string, i: int)
  {
    StripsTo(flag, i, i + 2) && UpperIsS(flag[i]) && UpperIsI(flag[i + 1])
  }

  /** A flag reads "yes" exactly when it is an S and an I, in any case, padded only by whitespace. */
  lemma YesFlagIsPaddedSI(flag: string)
    ensures IsYesFlag(flag) <==> exists i :: YesAt(flag, i)
  {
    StripIsSlice(flag);
    var i, j :| StripsTo(flag, i, j) && Strip(flag) == flag[i..j];
    if IsYesFlag(flag) {
      assert YesAt(flag, i);
    }
    if exists k :: YesAt(flag, k) {
      var k :| YesAt(flag, k);
      StripsToUnique(flag, k, k + 2, i, j);
    }
  }

  /** Surrounding whitespace and letter case do not matter; anything else in the flag does. */
  lemma YesFlagExamples()
    ensures IsYesFlag("SI") && IsYesFlag(" si\n")
    ensures !IsYesFlag("NO") && !IsYesFlag("S I") && !IsYesFlag("SIN")
  {
    assert Strip("SI") == "SI";
    assert StripStart(" si\n") == "si\n";
    assert Strip(" si\n") == "si";
    assert Strip("S I") == "S I";
    assert Strip("SIN") == "SIN";
  }
}
