/** Feed entries as the feed parser hands them over, and the items the
    ingestion keeps. */
module Entry {
  import opened Text

  /** A field that a feed entry may or may not carry, like a `dict` key. */
  datatype Option<T> = None | Some(value: T) {

    /** `d.get(key, default)` */
    function GetOr(default: T): T {
      match this
      case Some(v) => v
      case None => default
    }
  }

  /** One parsed feed entry; any of its fields may be absent. */
  datatype RawEntry = RawEntry(
    title: Option<string>,
    link: Option<string>,
    published: Option<string>,
    updated: Option<string>,
    summary: Option<string>)

  /** One kept item, as appended to `all_items`. */
  datatype Item = Item(title: string, link: string, published: string, summary: string)

  /** The item built from an entry (the body of the inner loop before the
      fingerprint is taken). */
  function Normalise(e: RawEntry): Item {
    Item(
      Strip(e.title.GetOr("")),
      Strip(e.link.GetOr("")),
      e.published.GetOr(e.updated.GetOr("")),
      e.summary.GetOr(""))
  }

  /** Title and link are stripped (an absent one becomes ""); the date is
      the publication date, else the update date, else ""; the summary
      defaults to "". Date and summary are kept as they are, not stripped. */
  lemma NormaliseFields(e: RawEntry)
    ensures Trimmed(Normalise(e).title) && Trimmed(Normalise(e).link)
    ensures e.title.None? ==> Normalise(e).title == ""
    ensures e.title.Some? ==> Framed(e.title.value, Normalise(e).title)
    ensures e.link.None? ==> Normalise(e).link == ""
    ensures e.link.Some? ==> Framed(e.link.value, Normalise(e).link)
    ensures e.published.Some? ==> Normalise(e).published == e.published.value
    ensures e.published.None? && e.updated.Some? ==> Normalise(e).published == e.updated.value
    ensures e.published.None? && e.updated.None? ==> Normalise(e).published == ""
    ensures e.summary.Some? ==> Normalise(e).summary == e.summary.value
    ensures e.summary.None? ==> Normalise(e).summary == ""
  {
    StripSpec(e.title.GetOr(""));
    StripSpec(e.link.GetOr(""));
  }
}
