/**
 The string helpers the hub relies on: `Char.IsWhiteSpace`, `string.IsNullOrWhiteSpace`
 and `string.Trim()`, together with the display-name normalisation done by `Register`.
 Strings are sequences of Unicode scalar values.
 */
module Text {
  import opened Wrappers

  /** The name stored for a connection that registers with a blank name. */
  const GuestName: string := "Guest"

  /** `Char.IsWhiteSpace`: the Unicode space, line and paragraph separators
      together with the controls U+0009..U+000D and U+0085. */
  predicate IsWhiteSpace(c: char) {
    || ('\t' <= c <= '\r')
    || c == ' '
    || c == '\U{0085}'
    || c == '\U{00A0}'
    || c == '\U{1680}'
    || ('\U{2000}' <= c <= '\U{200A}')
    || c == '\U{2028}'
    || c == '\U{2029}'
    || c == '\U{202F}'
    || c == '\U{205F}'
    || c == '\U{3000}'
  }

  predicate AllWhiteSpace(s: string) {
    forall i :: 0 <= i < |s| ==> IsWhiteSpace(s[i])
  }

  /** `string.IsNullOrWhiteSpace`: null, empty, or white space only; equivalently,
      null or trimming to the empty string. */
  predicate IsNullOrWhiteSpace(s: Option<string>)
    ensures IsNullOrWhiteSpace(s) <==> s.None? || Trim(s.value) == []
  {
    if s.None? then true
    else
      TrimEmptyIffBlank(s.value);
      AllWhiteSpace(s.value)
  }

  /** The characters `Char.IsWhiteSpace` accepts include the ASCII controls and every
      Unicode space separator, and exclude the zero-width and formatting characters. */
  lemma WhiteSpaceAgreesWithCharIsWhiteSpace()
    ensures IsWhiteSpace(' ') && IsWhiteSpace('\t') && IsWhiteSpace('\n') && IsWhiteSpace('\r')
    ensures IsWhiteSpace('\U{000B}') && IsWhiteSpace('\U{000C}') && IsWhiteSpace('\U{0085}')
    ensures IsWhiteSpace('\U{00A0}') && IsWhiteSpace('\U{1680}')
    ensures forall c :: '\U{2000}' <= c <= '\U{200A}' ==> IsWhiteSpace(c)
    ensures IsWhiteSpace('\U{2028}') && IsWhiteSpace('\U{2029}') && IsWhiteSpace('\U{202F}')
    ensures IsWhiteSpace('\U{205F}') && IsWhiteSpace('\U{3000}')
    ensures !IsWhiteSpace('\0') && !IsWhiteSpace('\U{001F}') && !IsWhiteSpace('\U{180E}')
    ensures !IsWhiteSpace('\U{200B}') && !IsWhiteSpace('\U{2060}') && !IsWhiteSpace('\U{FEFF}')
    ensures !IsWhiteSpace('G') && !IsWhiteSpace('_')
  {
  }

  /** Neither the first nor the last character is white space. */
  predicate IsTrimmed(s: string) {
    s == [] || (!IsWhiteSpace(s[0]) && !IsWhiteSpace(s[|s| - 1]))
  }

  /** A name as `Register` stores it: non-empty and trimmed at both ends. */
  predicate IsDisplayName(s: string) {
    s != [] && IsTrimmed(s)
  }

  /** Every character of `s` outside `s[i..j]` is white space. */
  predicate WhiteSpaceOutside(s: string, i: nat, j: nat)
    requires i <= j <= |s|
  {
    forall k :: 0 <= k < |s| && !(i <= k < j) ==> IsWhiteSpace(s[k])
  }

  /** Length of the longest white-space prefix of `s`. */
  function LeadingWhiteSpace(s: string): (n: nat)
    ensures n <= |s|
    ensures WhiteSpaceOutside(s, n, |s|)
    ensures n < |s| ==> !IsWhiteSpace(s[n])
  {
    if s == [] || !IsWhiteSpace(s[0]) then 0
    else
      var k := LeadingWhiteSpace(s[1..]);
      assert forall m :: 1 <= m < |s| ==> s[m] == s[1..][m - 1];
      1 + k
  }

  /** Length of the longest white-space suffix of `s`. */
  function TrailingWhiteSpace(s: string): (n: nat)
    ensures n <= |s|
    ensures WhiteSpaceOutside(s, 0, |s| - n)
    ensures n < |s| ==> !IsWhiteSpace(s[|s| - n - 1])
  {
    if s == [] || !IsWhiteSpace(s[|s| - 1]) then 0
    else 1 + TrailingWhiteSpace(s[..|s| - 1])
  }

  /** `s[i..j]` is trimmed and everything outside it is white space. */
  predicate TrimmedFrom(s: string, i: nat, j: nat)
  {
    && i <= j <= |s|
    && WhiteSpaceOutside(s, i, j)
    && IsTrimmed(s[i..j])
  }

  /** `string.Trim()`: `s` without its leading and trailing white space. */
  function Trim(s: string): (r: string)
    ensures IsTrimmed(r)
    ensures |r| <= |s|
    ensures exists i: nat, j: nat :: TrimmedFrom(s, i, j) && r == s[i..j]
  {
    var lead := LeadingWhiteSpace(s);
    if lead == |s| then
      assert TrimmedFrom(s, |s|, |s|);
      []
    else
      var trail := TrailingWhiteSpace(s);
      assert TrimmedFrom(s, lead, |s| - trail);
      s[lead..|s| - trail]
  }

  /** A white-space prefix followed by a non-white character (or the end of the string)
      is exactly what `LeadingWhiteSpace` measures. */
  lemma LeadingWhiteSpaceIsExact(s: string, i: nat)
    requires i <= |s| && WhiteSpaceOutside(s, i, |s|)
    requires i < |s| ==> !IsWhiteSpace(s[i])
    ensures LeadingWhiteSpace(s) == i
  {
  }

  /** The mirror image of `LeadingWhiteSpaceIsExact`. */
  lemma TrailingWhiteSpaceIsExact(s: string, i: nat)
    requires i <= |s| && WhiteSpaceOutside(s, 0, |s| - i)
    requires i < |s| ==> !IsWhiteSpace(s[|s| - i - 1])
    ensures TrailingWhiteSpace(s) == i
  {
  }

  /** There is only one way to cut white space off both ends of a string so that
      what remains is trimmed, and `Trim` finds it. */
  lemma TrimIsUnique(s: string, i: nat, j: nat)
    requires TrimmedFrom(s, i, j)
    ensures Trim(s) == s[i..j]
  {
    if i == j {
      LeadingWhiteSpaceIsExact(s, |s|);
    } else {
      assert s[i..j][0] == s[i];
      assert s[i..j][j - i - 1] == s[j - 1];
      LeadingWhiteSpaceIsExact(s, i);
      TrailingWhiteSpaceIsExact(s, |s| - j);
    }
  }

  /** Trimming twice is trimming once. */
  lemma TrimIsIdempotent(s: string)
    ensures Trim(Trim(s)) == Trim(s)
  {
  }

  /** `Trim` empties a string exactly when it is white space only. */
  lemma TrimEmptyIffBlank(s: string)
    ensures Trim(s) == [] <==> AllWhiteSpace(s)
  {
    if AllWhiteSpace(s) {
      TrimIsUnique(s, |s|, |s|);
    } else {
      var r := Trim(s);
      var i: nat, j: nat :| TrimmedFrom(s, i, j) && r == s[i..j];
    }
  }

  /** The name `Register` stores for the name it was given. */
  function NormalizeName(name: Option<string>): (r: string)
    ensures IsDisplayName(r)
    ensures IsNullOrWhiteSpace(name) ==> r == GuestName
    ensures !IsNullOrWhiteSpace(name) ==> r == Trim(name.value)
  {
    var given := if IsNullOrWhiteSpace(name) then GuestName else name.value;
    assert GuestName[0..|GuestName|] == GuestName;
    TrimIsUnique(GuestName, 0, |GuestName|);
    Trim(given)
  }
}
