/** Fixed-width integers, optional values and C string copies shared by the other modules. */
module Basics {

  datatype Option<+T> = None | Some(value: T)

  const INT_MAX := 0x7FFF_FFFF
  const WORD := 0x1_0000_0000

  /** `int` on the platforms the program targets; assigning to it checks for overflow. */
  type Int32 = x: int | -0x8000_0000 <= x <= 0x7FFF_FFFF

  /** `uint32_t`. */
  type Word32 = x: int | 0 <= x < 0x1_0000_0000

  const WORD64 := 0x1_0000_0000_0000_0000

  /** `unsigned long`. */
  type Word64 = x: int | 0 <= x < 0x1_0000_0000_0000_0000

  /** A counter of that type after `++`. */
  function Inc(x: Word64): Word64 {
    (x + 1) % WORD64
  }

  /** `uint8_t`. */
  type Byte = x: int | 0 <= x < 256

  function Min(a: int, b: int): int {
    if a < b then a else b
  }

  function Max(a: int, b: int): int {
    if a < b then b else a
  }

  /** Unsigned 32-bit arithmetic wraps around. */
  function Wrap(x: int): Word32 {
    x % WORD
  }

  /** What a buffer of n + 1 characters holds after `snprintf(buffer, n + 1, "%s", s)`. */
  function Cut(s: string, n: nat): string {
    if |s| <= n then s else s[..n]
  }

  /** The two cases of one of the 26 letters. */
  predicate CasePair(u: char, l: char) {
    (u == 'A' && l == 'a') || (u == 'B' && l == 'b') || (u == 'C' && l == 'c') || (u == 'D' && l == 'd') ||
    (u == 'E' && l == 'e') || (u == 'F' && l == 'f') || (u == 'G' && l == 'g') || (u == 'H' && l == 'h') ||
    (u == 'I' && l == 'i') || (u == 'J' && l == 'j') || (u == 'K' && l == 'k') || (u == 'L' && l == 'l') ||
    (u == 'M' && l == 'm') || (u == 'N' && l == 'n') || (u == 'O' && l == 'o') || (u == 'P' && l == 'p') ||
    (u == 'Q' && l == 'q') || (u == 'R' && l == 'r') || (u == 'S' && l == 's') || (u == 'T' && l == 't') ||
    (u == 'U' && l == 'u') || (u == 'V' && l == 'v') || (u == 'W' && l == 'w') || (u == 'X' && l == 'x') ||
    (u == 'Y' && l == 'y') || (u == 'Z' && l == 'z')
  }

  /** The same character, up to the case of a letter. */
  predicate SameLetter(c: char, d: char) {
    c == d || CasePair(c, d) || CasePair(d, c)
  }

  /** The same text, up to the case of its letters. */
  predicate SameLetters(s: string, t: string) {
    |s| == |t| && forall i :: 0 <= i < |s| ==> SameLetter(s[i], t[i])
  }

  /** Position of the first c in s, or the length of s when there is none. */
  function IndexOf(s: string, c: char): (k: nat)
    ensures k <= |s|
    ensures k < |s| ==> s[k] == c
    ensures forall i :: 0 <= i < k ==> s[i] != c
  {
    if s == [] || s[0] == c then 0 else 1 + IndexOf(s[1..], c)
  }

  /** IndexOf is the only position with its three properties. */
  lemma IndexOfUnique(s: string, c: char, k: nat)
    requires k <= |s|
    requires k < |s| ==> s[k] == c
    requires forall i :: 0 <= i < k ==> s[i] != c
    ensures IndexOf(s, c) == k
  {
  }

  /** Position of the first element with a key, or the length of s when there is none. */
  function FindBy<T>(s: seq<T>, key: string, keyOf: T -> string): (k: nat)
    ensures k <= |s|
    ensures k < |s| ==> keyOf(s[k]) == key
    ensures forall i :: 0 <= i < k ==> keyOf(s[i]) != key
  {
    if s == [] || keyOf(s[0]) == key then 0 else 1 + FindBy(s[1..], key, keyOf)
  }

  /** The C string stored in a character buffer: everything before the first NUL. */
  function CString(s: string): string {
    s[..IndexOf(s, '\0')]
  }
}
