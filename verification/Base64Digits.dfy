/** The base64 alphabets of sections 4 and 5 of RFC 4648. */
module Base64Digits {
  import opened Prelude

  const UPPER := "ABCDEFGHIJKLMNOPQRSTUVWXYZ"
  const LOWER := "abcdefghijklmnopqrstuvwxyz"
  const FIGURES := "0123456789"

  function Base64(d: nat): char
    requires d < 64
  {
    if d < 26 then UPPER[d] else if d < 52 then LOWER[d - 26] else if d < 62 then FIGURES[d - 52]
    else if d == 62 then '+' else '/'
  }

  /** Table 1 of section 4 of RFC 4648. */
  function DigitOf(c: char): Option<nat> {
    if 'A' <= c <= 'Z' then Some((c - 'A') as nat)
    else if 'a' <= c <= 'z' then Some((c - 'a') as nat + 26)
    else if '0' <= c <= '9' then Some((c - '0') as nat + 52)
    else if c == '+' then Some(62)
    else if c == '/' then Some(63)
    else None
  }

  lemma DigitsAreInTable(i: nat)
    requires i < 64
    ensures DigitOf(Base64(i)) == Some(i)
  {
    if i < 26 { assert UPPER[i] == 'A' + i as char; }
    else if i < 52 { assert LOWER[i - 26] == 'a' + (i - 26) as char; }
    else if i < 62 { assert FIGURES[i - 52] == '0' + (i - 52) as char; }
  }

  /** The URL-safe alphabet differs in its last two digits. */
  function Base64Url(d: nat): char
    requires d < 64
  {
    if d == 62 then '-' else if d == 63 then '_' else Base64(d)
  }
}
