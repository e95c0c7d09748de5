/** The section locator: the `find` over the section outline returned by the
    dictionary's parse API, keeping the `index` of the first section whose
    title is exactly "Pronunciation".
 */
module Sections {
  import opened Wrappers

  /** One entry of the section outline: its title (`line`) and its opaque index. */
  datatype Section = Section(line: string, index: string)

  /** The title the handler looks for, compared with strict string equality. */
  const PronunciationTitle: string := "Pronunciation"

  /** `k` is the position of the first section titled `title`. */
  ghost predicate FirstTitled(secs: seq<Section>, title: string, k: int)
  {
    && 0 <= k < |secs|
    && secs[k].line == title
    && forall j :: 0 <= j < k ==> secs[j].line != title
  }

  /** Position of the first section titled `title`, or None when no section
      carries that title (the `find` returning undefined). */
  function FindTitled(secs: seq<Section>, title: string): (r: Option<nat>)
    ensures r.Some? ==> FirstTitled(secs, title, r.value)
    ensures r.None? ==> forall j :: 0 <= j < |secs| ==> secs[j].line != title
  {
    if |secs| == 0 then None
    else if secs[0].line == title then Some(0)
    else
      match FindTitled(secs[1..], title)
      case Some(k) => Some(k + 1)
      case None => None
  }

  /** The index of the "Pronunciation" section, absent when the outline has none. */
  function PronunciationIndex(secs: seq<Section>): (r: Option<string>)
    ensures r.None? <==> forall j :: 0 <= j < |secs| ==> secs[j].line != PronunciationTitle
    ensures r.Some? ==> exists k :: FirstTitled(secs, PronunciationTitle, k) && r.value == secs[k].index
  {
    match FindTitled(secs, PronunciationTitle)
    case Some(k) => Some(secs[k].index)
    case None => None
  }

  /** The first section titled `title` is unique: the locator's answer does not
      depend on how it was found. */
  lemma FirstTitledUnique(secs: seq<Section>, title: string, k1: int, k2: int)
    requires FirstTitled(secs, title, k1) && FirstTitled(secs, title, k2)
    ensures k1 == k2
  {
  }

  /** Sections after the first "Pronunciation" one, and a later duplicate title,
      never change the located index. */
  lemma PronunciationIndexIgnoresSuffix(secs: seq<Section>, more: seq<Section>)
    requires PronunciationIndex(secs).Some?
    ensures PronunciationIndex(secs + more) == PronunciationIndex(secs)
  {
    var k :| FirstTitled(secs, PronunciationTitle, k) && PronunciationIndex(secs).value == secs[k].index;
    var all := secs + more;
    assert FirstTitled(all, PronunciationTitle, k);
    var k' :| FirstTitled(all, PronunciationTitle, k') && PronunciationIndex(all).value == all[k'].index;
    FirstTitledUnique(all, PronunciationTitle, k, k');
  }
}
