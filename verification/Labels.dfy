/** A display label's size (go/abstraction/job/acceptance/decision.go: NormalizeLabel counts bytes of UTF-8). */
module Labels {
  import Decision
  import opened Text

  /** The code points of a label. */
  function RunesOf(text: string): seq<rune> {
    if text == "" then [] else [text[0] as int] + RunesOf(text[1..])
  }

  /** The size a label is limited by is the length of its UTF-8. */
  lemma {:induction false} LabelSize(text: string)
    ensures Decision.Utf8Length(text) == |RunesEncoded(RunesOf(text))|
  {
    if text != "" {
      LabelSize(text[1..]);
      assert RunesOf(text)[1..] == RunesOf(text[1..]);
      assert Decision.Utf8Size(text[0]) == |RuneBytes(text[0] as int)|;
    }
  }
}
