/**
 * Occurrence of one piece of text inside another, shared by the notice
 * wording of the validators and the scanning rules of the template engine.
 */
module Text {

  /** `needle` occurs in `text` starting at index `i`. */
  predicate OccursAt(text: string, needle: string, i: int) {
    0 <= i <= |text| - |needle| && text[i..i + |needle|] == needle
  }

  /** `needle` occurs somewhere in `text`. */
  predicate Mentions(text: string, needle: string) {
    exists i :: 0 <= i <= |text| && OccursAt(text, needle, i)
  }

}
