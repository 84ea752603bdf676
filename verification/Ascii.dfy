/** Upper and lower case of one-byte characters. */
module Ascii {
  function ToLower(c: char): char {
    if 'A' <= c <= 'Z' then c + ('a' - 'A') else c
  }

  function ToUpper(c: char): char {
    if 'a' <= c <= 'z' then c - ('a' - 'A') else c
  }

  const SMALL := "abcdefghijklmnopqrstuvwxyz"
  const CAPITAL := "ABCDEFGHIJKLMNOPQRSTUVWXYZ"

  lemma Places(i: nat)
    requires i < 26
    ensures SMALL[i] as int == 'a' as int + i && CAPITAL[i] as int == 'A' as int + i
  {
  }

  /** Letters change place by place, and nothing else changes. */
  lemma Letters(c: char, i: nat)
    requires i < 26
    ensures ToUpper(SMALL[i]) == ToUpper(CAPITAL[i]) == CAPITAL[i]
    ensures ToLower(SMALL[i]) == ToLower(CAPITAL[i]) == SMALL[i]
    ensures c !in SMALL && c !in CAPITAL ==> ToUpper(c) == ToLower(c) == c
  {
    Places(i);
    if 'a' <= c <= 'z' { Places(c as int - 'a' as int); }
    if 'A' <= c <= 'Z' { Places(c as int - 'A' as int); }
  }
}
