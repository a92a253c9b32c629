/** Decimal numbers and letter case in texts. */
module Texts {
  type Text = string

  predicate AllDigits(text: Text) {
    forall i :: 0 <= i < |text| ==> '0' <= text[i] <= '9'
  }

  predicate Digits(text: Text) {
    text != "" && AllDigits(text)
  }

  function ReadDecimal(text: Text): nat
    requires AllDigits(text)
  {
    if text == "" then 0 else 10 * ReadDecimal(text[..|text| - 1]) + (text[|text| - 1] as int - '0' as int)
  }

  function Decimal(n: nat): (r: Text)
    ensures Digits(r)
  {
    var last := [('0' as int + n % 10) as char];
    if n < 10 then last else Decimal(n / 10) + last
  }

  lemma {:induction false} DecimalReadsBack(n: nat)
    ensures ReadDecimal(Decimal(n)) == n
  {
    var text := Decimal(n);
    if n >= 10 {
      DecimalReadsBack(n / 10);
      assert text[..|text| - 1] == Decimal(n / 10);
    }
  }

  function LowerCase(c: char): char {
    if 'A' <= c <= 'Z' then (c as int + 32) as char else c
  }

  /** Whether two texts are the same but for the case of letters; `word` is in lower case. */
  predicate Same(text: Text, word: Text) {
    |text| == |word| && StartsWith(text, word)
  }

  predicate StartsWith(text: Text, word: Text) {
    |word| <= |text| && forall i :: 0 <= i < |word| ==> LowerCase(text[i]) == word[i]
  }

  lemma Starts(word: Text, rest: Text)
    requires forall i :: 0 <= i < |word| ==> LowerCase(word[i]) == word[i]
    ensures StartsWith(word + rest, word) && Same(word, word)
  {
  }

  lemma DiffersAtFirst(text: Text, word: Text)
    requires text != "" && word != "" && LowerCase(text[0]) != word[0]
    ensures !StartsWith(text, word)
  {
  }
}
