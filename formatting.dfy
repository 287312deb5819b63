/** The Telegram rendering of one announcement (`TelegramObavestenje.__init__`):
    the title's heading tags become bold, and the plain-text body gets the
    markup of its supported inline tags substituted back in. */
module Formatting {
  import opened Wrappers
  import opened Text

  /** One descendant tag of the body, in document order: its name, its
      `.string` (None when the tag has no single string child) and its
      markup `str(tag)`. */
  datatype Tag = Tag(name: string, str: Option<string>, markup: string)

  /** The selected body element as the HTML parser hands it over: its plain
      text (`.text`), its descendant tags in document order (`find_all()`),
      and the `src` attribute of each of its `img` tags (`find_all('img')`),
      None for an `img` without one. */
  datatype Content = Content(plain: string, tags: seq<Tag>, images: seq<Option<string>>)

  /** What `TelegramObavestenje` holds after construction; `html_naslov` and
      `html_sadrzaj` are the same strings as `naslov` and `sadrzaj`. */
  datatype Notice = Notice(title: string, body: string)

  /** The tag names Telegram's HTML parse mode accepts. */
  const Supported: seq<string> :=
    ["strong", "em", "ins", "strike", "del", "u", "b", "i", "s", "a", "code", "pre"]

  /** `str(tag.string)`: Python renders a missing string as "None". */
  function TagString(t: Tag): string
  {
    match t.str
    case Some(s) => s
    case None => "None"
  }

  /** The title: `str(naslov)` with every "h1", then every "h3", replaced by "b". */
  function FormatTitle(heading: string): (title: string)
    ensures !Contains(title, "h1") && !Contains(title, "h3")
    ensures !Contains(heading, "h1") && !Contains(heading, "h3") ==> title == heading
    ensures heading != [] ==> title != []
  {
    var once := ReplaceAll(heading, "h1", "b");
    ReplacePairRemovesIt(heading, 'h', '1', 'b');
    ReplacePairRemovesIt(once, 'h', '3', 'b');
    ReplacePairKeepsAbsent(once, 'h', '3', 'b', 'h', '1');
    ReplaceAll(once, "h3", "b")
  }

  /** Formatting a title twice gives the same as formatting it once. */
  lemma TitleIdempotent(heading: string)
    ensures FormatTitle(FormatTitle(heading)) == FormatTitle(heading)
  {
  }

  /** One step of the body loop: a supported tag has every occurrence of its
      string replaced by its markup; any other tag changes nothing. */
  function Substitute(body: string, t: Tag): string
  {
    if t.name in Supported then ReplaceAll(body, TagString(t), t.markup) else body
  }

  /** The body after the loop has visited `tags` in order, starting from the
      plain text. */
  function FormattedBody(plain: string, tags: seq<Tag>): string
    decreases |tags|
  {
    if tags == [] then plain
    else Substitute(FormattedBody(plain, tags[..|tags| - 1]), tags[|tags| - 1])
  }

  /** The `__init__` constructor: formats the title, then walks the body's
      tags in document order, rebinding the body at each supported one. */
  method BuildNotice(heading: string, content: Content) returns (n: Notice)
    ensures n.title == FormatTitle(heading)
    ensures n.body == FormattedBody(content.plain, content.tags)
  {
    var title := ReplaceAll(ReplaceAll(heading, "h1", "b"), "h3", "b");
    var body := content.plain;
    var i := 0;
    while i < |content.tags|
      invariant 0 <= i <= |content.tags|
      invariant body == FormattedBody(content.plain, content.tags[..i])
    {
      var tag := content.tags[i];
      if tag.name in Supported {
        body := ReplaceAll(body, TagString(tag), tag.markup);
      }
      assert content.tags[..i + 1][..i] == content.tags[..i];
      i := i + 1;
    }
    assert content.tags[..|content.tags|] == content.tags;
    n := Notice(title, body);
  }

  /** The tags that take part in formatting, in their original order. */
  function SupportedOnly(tags: seq<Tag>): (kept: seq<Tag>)
    ensures |kept| <= |tags|
    ensures forall i :: 0 <= i < |kept| ==> kept[i].name in Supported
    decreases |tags|
  {
    if tags == [] then []
    else if tags[|tags| - 1].name in Supported then SupportedOnly(tags[..|tags| - 1]) + [tags[|tags| - 1]]
    else SupportedOnly(tags[..|tags| - 1])
  }

  /** Only tags whose name is in the supported list affect the body. */
  lemma {:induction false} OnlySupportedTagsMatter(plain: string, tags: seq<Tag>)
    ensures FormattedBody(plain, tags) == FormattedBody(plain, SupportedOnly(tags))
    decreases |tags|
  {
    if tags != [] {
      var init := tags[..|tags| - 1];
      var last := tags[|tags| - 1];
      OnlySupportedTagsMatter(plain, init);
      if last.name in Supported {
        var kept := SupportedOnly(init) + [last];
        assert kept[..|kept| - 1] == SupportedOnly(init);
      }
    }
  }

  /** With no supported tag among them, the body is the plain text. */
  lemma {:induction false} UnsupportedTagsKeepPlain(plain: string, tags: seq<Tag>)
    requires forall i :: 0 <= i < |tags| ==> tags[i].name !in Supported
    ensures FormattedBody(plain, tags) == plain
    decreases |tags|
  {
    if tags != [] {
      UnsupportedTagsKeepPlain(plain, tags[..|tags| - 1]);
    }
  }

  /** Substitutions are applied in document order: formatting with the tags
      of `first` and then those of `second` is formatting with both. */
  lemma {:induction false} FormattingInDocumentOrder(plain: string, first: seq<Tag>, second: seq<Tag>)
    ensures FormattedBody(plain, first + second) == FormattedBody(FormattedBody(plain, first), second)
    decreases |second|
  {
    if second == [] {
      assert first + second == first;
    } else {
      var init := second[..|second| - 1];
      FormattingInDocumentOrder(plain, first, init);
      assert (first + second)[..|first + second| - 1] == first + init;
    }
  }

  /** A supported tag replaces every occurrence of its string: the body
      before the step splits at those occurrences into pieces free of it,
      and the body after is those pieces joined by the tag's markup. */
  lemma SupportedTagReplacesEveryOccurrence(body: string, t: Tag)
    requires t.name in Supported && TagString(t) != []
    ensures var pieces := Split(body, TagString(t));
      && Join(pieces, TagString(t)) == body
      && (forall i :: 0 <= i < |pieces| ==> !Contains(pieces[i], TagString(t)))
      && Substitute(body, t) == Join(pieces, t.markup)
  {
    SplitJoinRoundTrip(body, TagString(t));
    SplitPiecesAreFree(body, TagString(t));
    ReplaceIsJoinOfSplit(body, TagString(t), t.markup);
  }

  /** A tag without a single string child substitutes the literal "None":
      when supported, every "None" in the body becomes the tag's markup and
      nothing else changes; a body that does not contain "None" is left as
      it was. */
  lemma StringlessTagSubstitutesNone(body: string, t: Tag)
    requires t.str.None?
    ensures t.name in Supported ==> Substitute(body, t) == ReplaceAll(body, "None", t.markup)
    ensures t.name in Supported ==>
      var pieces := Split(body, "None");
      && Join(pieces, "None") == body
      && (forall i :: 0 <= i < |pieces| ==> !Contains(pieces[i], "None"))
      && Substitute(body, t) == Join(pieces, t.markup)
    ensures !Contains(body, "None") ==> Substitute(body, t) == body
  {
    if t.name in Supported {
      SupportedTagReplacesEveryOccurrence(body, t);
    }
  }
}
