/** The theme selector's labels (app.py:511-515): each theme is offered as
    "<emoji> <name>", and the chosen label is turned back into a theme name
    with `label.split(" ", 1)[1]`. */
module Themes {
  import opened Wrappers
  import opened Strings

  datatype Theme = Theme(name: string, emoji: string)

  /** The theme names and emoji of the `THEMES` table (app.py:30-103), in
      table order; the colour and font entries are not modelled. */
  const Table: seq<Theme> := [
    Theme("Cyber Green", "\U{1F310}"),
    Theme("Ocean Blue", "\U{1F30A}"),
    Theme("Neon Purple", "\U{1F49C}"),
    Theme("Forest", "\U{1F332}"),
    Theme("Light Mode", "\U{2600}\U{FE0F}"),
    Theme("Deep Ocean", "\U{1F30A}")
  ]

  /** `f"{emoji} {name}"` (app.py:512): the emoji, one space, the name. */
  function Label(emoji: string, name: string): (r: string)
    ensures |r| == |emoji| + 1 + |name|
    ensures r[..|emoji|] == emoji && r[|emoji|] == ' ' && r[|emoji| + 1..] == name
  {
    emoji + " " + name
  }

  /** `chosen.split(" ", 1)[1]` (app.py:515): the text after the first space;
      a label without a space has no second part (Python raises
      `IndexError`). */
  function DecodeLabel(chosen: string): (r: Option<string>)
    ensures r.None? <==> ' ' !in chosen
    ensures r.Some? ==> exists head :: ' ' !in head && chosen == head + " " + r.value
  {
    var parts := SplitOnce(chosen, ' ');
    if |parts| == 2 then
      assert chosen == parts[0] + " " + parts[1];
      Some(parts[1])
    else None
  }

  /** The first space of `a + " " + b` is the one after `a` when `a` has none. */
  lemma {:induction false} FirstSpaceAfter(a: string, b: string)
    requires ' ' !in a
    ensures IndexOf(a + " " + b, ' ') == Some(|a|)
    decreases |a|
  {
    var s := a + " " + b;
    if a != [] {
      assert s[0] == a[0];
      assert s[1..] == a[1..] + " " + b;
      FirstSpaceAfter(a[1..], b);
    }
  }

  /** Decoding a label returns the theme name exactly when the emoji holds no
      space; otherwise part of the emoji is read as part of the name. */
  lemma LabelRoundTrip(emoji: string, name: string)
    ensures DecodeLabel(Label(emoji, name)) == Some(name) <==> ' ' !in emoji
  {
    var text := Label(emoji, name);
    if ' ' !in emoji {
      FirstSpaceAfter(emoji, name);
      assert text[..|emoji|] == emoji;
      assert text[|emoji| + 1..] == name;
    } else {
      var k := IndexOf(emoji, ' ').value;
      var head, tail := emoji[..k], emoji[k + 1..];
      assert emoji == head + " " + tail;
      assert text == head + " " + (tail + " " + name);
      FirstSpaceAfter(head, tail + " " + name);
      assert text[..|head|] == head;
      assert text[|head| + 1..] == tail + " " + name;
      assert |DecodeLabel(text).value| > |name|;
    }
  }

  /** Every theme of the table survives the selector: its label decodes to
      its own name, so re-selecting the current theme changes nothing
      (app.py:516). */
  lemma TableLabelsRoundTrip(i: int)
    requires 0 <= i < |Table|
    ensures DecodeLabel(Label(Table[i].emoji, Table[i].name)) == Some(Table[i].name)
  {
    assert ' ' !in Table[i].emoji;
    LabelRoundTrip(Table[i].emoji, Table[i].name);
  }
}
