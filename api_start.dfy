/** The API-key column: only the key's stored prefix is shown, followed by a fixed mask. */
module ApiStart {

  import opened Wrappers

  /** Eight bullets, standing for the hidden rest of the key. */
  const Dots: string := "••••••••"

  /**
   * The cell's text: the prefix when there is a non-empty one, "?" otherwise (a missing and an
   * empty prefix alike), followed by the mask.
   */
  function Mask(start: Option<string>): string {
    Shown(start) + Dots
  }

  /** What is shown before the mask: `start || "?"`. */
  function Shown(start: Option<string>): string {
    if start.Some? && start.value != "" then start.value else "?"
  }

  /**
   * The text is what is shown before the mask followed by exactly eight bullets; a non-empty
   * prefix is shown whole and unaltered, and a missing or empty one is shown as "?".
   */
  lemma MaskShape(start: Option<string>)
    ensures |Dots| == 8 && forall i :: 0 <= i < 8 ==> Dots[i] == '•'
    ensures |Mask(start)| == |Shown(start)| + 8
    ensures Mask(start)[|Mask(start)| - 8..] == Dots
    ensures start.Some? && start.value != "" ==> Mask(start)[..|start.value|] == start.value
    ensures start.None? || start.value == "" ==> Mask(start) == "?" + Dots
  {
    var m := Mask(start);
    assert m[|m| - 8..] == Dots;
  }

  /** Two non-empty prefixes give the same text only when they are the same prefix. */
  lemma MaskInjective(a: string, b: string)
    requires a != "" && b != ""
    requires Mask(Some(a)) == Mask(Some(b))
    ensures a == b
  {
    assert |a| == |b|;
    assert a == Mask(Some(a))[..|a|];
  }
}
