/**
  JavaScript string semantics the handlers rely on: truthiness of a request
  field, the `given || old` fallback, and the text-to-boolean rule for `open`.
 */
module Text {
  import opened Wrappers

  /** JavaScript truthiness of a request field: an absent field and "" are falsy. */
  predicate Truthy(field: Option<string>) {
    field.Some? && field.value != ""
  }

  /** `given || fallback` for string fields. */
  function OrElse(given: Option<string>, fallback: string): (r: string)
    ensures r == fallback || given == Some(r)
    ensures Truthy(given) ==> r == given.value
    ensures fallback != "" ==> r != ""
  {
    if Truthy(given) then given.value else fallback
  }

  /** `toLowerCase` on the ASCII letters. */
  function LowerChar(c: char): char {
    if 'A' <= c <= 'Z' then (c as int - 'A' as int + 'a' as int) as char else c
  }

  function Lower(s: string): (r: string)
    ensures |r| == |s|
    ensures forall i | 0 <= i < |s| :: r[i] == LowerChar(s[i])
  {
    seq(|s|, i requires 0 <= i < |s| => LowerChar(s[i]))
  }

  /**
    `open.toLowerCase() === "true"`. Lowering only the ASCII letters gives the
    same verdict as full Unicode lowering here, since no other character lowers
    to one of the letters of "true".
   */
  predicate IsTrueText(s: string) {
    Lower(s) == "true"
  }

  /** The rule spelled out: exactly the sixteen case variants of "true" are true. */
  lemma IsTrueTextCharacterised(s: string)
    ensures IsTrueText(s) <==>
      |s| == 4 && s[0] in "tT" && s[1] in "rR" && s[2] in "uU" && s[3] in "eE"
  {
  }
}
