/**
 The one way a written record changes an opaque payload (go/record.go: marshalJSON): the two separators that JSON
 allows raw inside a string are written as their six-character escapes.
 */
module Spelling {

  predicate Plain(text: string) {
    '\U{2028}' !in text && '\U{2029}' !in text
  }

  /** A character as a written record spells it. */
  function OneRespelled(c: char): string {
    if c == '\U{2028}' then "\\u2028" else if c == '\U{2029}' then "\\u2029" else [c]
  }

  function Respelled(text: string): string {
    if text == "" then ""
    else OneRespelled(text[0]) + Respelled(text[1..])
  }

  lemma SeparatorsEscaped()
    ensures Respelled("\U{2028}") == "\\u2028" && Respelled("\U{2029}") == "\\u2029"
  {
  }

  /** A payload is respelled character by character: a separator as its escape (SeparatorsEscaped), and anything else as it
      was (PlainIsKept). */
  lemma RespelledInOrder(c: char, more: string)
    ensures Respelled([c] + more) == Respelled([c]) + Respelled(more)
  {
    assert ([c] + more)[1..] == more;
  }

  lemma {:induction false} RespelledIsPlain(text: string)
    ensures Plain(Respelled(text))
  {
    if text != "" {
      RespelledIsPlain(text[1..]);
    }
  }

  lemma {:induction false} PlainIsKept(text: string)
    requires Plain(text)
    ensures Respelled(text) == text
  {
    if text != "" {
      PlainIsKept(text[1..]);
      assert text == text[..1] + text[1..];
    }
  }

  /** A payload comes back as it was written exactly when it holds no raw separator; written again, it stays. */
  lemma RespelledIff(text: string)
    ensures Respelled(text) == text <==> Plain(text)
    ensures Respelled(Respelled(text)) == Respelled(text)
  {
    RespelledIsPlain(text);
    PlainIsKept(Respelled(text));
    if Plain(text) {
      PlainIsKept(text);
    }
  }

  lemma NullIsNull(text: string)
    requires Respelled(text) == "null"
    ensures text == "null"
  {
    assert '\\' !in "null";
    if !Plain(text) {
      EscapeShows(text);
    } else {
      PlainIsKept(text);
    }
  }

  lemma {:induction false} EscapeShows(text: string)
    requires !Plain(text)
    ensures '\\' in Respelled(text)
  {
    if text[0] == '\U{2028}' || text[0] == '\U{2029}' {
      assert Respelled(text)[0] == '\\';
    } else {
      EscapeShows(text[1..]);
    }
  }
}
