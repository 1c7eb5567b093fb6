/**
 * The map's colouring: each region shape looks up its mall count (0 when
 * the region has no entry), picks one of four fill tiers and one of two
 * text colours, and shows the count label only for a positive count.
 */
module RegionMap {
  import opened Malls
  import opened RegionCounts

  /** The fill tiers, lightest first; `Fallback` is the last-resort return. */
  datatype Fill = Gray | LightBlue | MediumBlue | DarkBlue | Fallback

  /** The label colours. */
  datatype TextColor = White | DarkText

  /**
   * `getFillColorClass`, as a tier: gray exactly for 0, and the fallback
   * exactly for negative counts, so never for a mall count.
   */
  function FillTier(count: int): (t: Fill)
    ensures t == Gray <==> count == 0
    ensures t == Fallback <==> count < 0
  {
    if count == 0 then Gray
    else if count > 0 && count <= 5 then LightBlue
    else if count > 5 && count <= 15 then MediumBlue
    else if count > 15 then DarkBlue
    else Fallback
  }

  /** The Tailwind classes each fill tier stands for. */
  function FillClass(t: Fill): string {
    match t
    case Gray => "fill-gray-300 dark:fill-gray-600"
    case LightBlue => "fill-blue-300 dark:fill-blue-500"
    case MediumBlue => "fill-blue-500 dark:fill-blue-600"
    case DarkBlue => "fill-blue-700 dark:fill-blue-800"
    case Fallback => "fill-gray-400 dark:fill-gray-500"
  }

  /**
   * `getTextColorClass`, as a colour: for any mall count, white exactly on
   * the two darker blues and dark on the lighter fills.
   */
  function TextTier(count: int): (t: TextColor)
    ensures count >= 0 ==> (t == White <==> FillTier(count) == MediumBlue || FillTier(count) == DarkBlue)
  {
    if count > 5 then White else DarkText
  }

  /** The Tailwind classes each text colour stands for. */
  function TextClass(t: TextColor): string {
    match t
    case White => "fill-white"
    case DarkText => "fill-gray-800 dark:fill-gray-200"
  }

  /** Darkness rank of a tier; the fallback sits with the lightest. */
  function Rank(t: Fill): (n: nat)
    ensures n <= 3
  {
    match t
    case Gray => 0
    case LightBlue => 1
    case MediumBlue => 2
    case DarkBlue => 3
    case Fallback => 0
  }

  /** The boundaries of the four tiers. */
  lemma FillBoundaries()
    ensures FillTier(0) == Gray
    ensures forall c :: 1 <= c <= 5 ==> FillTier(c) == LightBlue
    ensures forall c :: 6 <= c <= 15 ==> FillTier(c) == MediumBlue
    ensures forall c :: c >= 16 ==> FillTier(c) == DarkBlue
  {
  }

  /** A larger count never gives a lighter tier. */
  lemma FillMonotone(a: int, b: int)
    requires 0 <= a <= b
    ensures Rank(FillTier(a)) <= Rank(FillTier(b))
  {
  }

  /** The count a region shape shows: its dictionary entry, with a missing entry (or a zero) read as 0. */
  function CountFor(counts: map<string, int>, name: string): (c: int)
    ensures name !in counts ==> c == 0
  {
    if name in counts && counts[name] != 0 then counts[name] else 0
  }

  /** Whether the count label is drawn: only for a positive count. */
  predicate ShowLabel(count: int)
    ensures count >= 0 ==> (ShowLabel(count) <==> FillTier(count) != Gray)
    ensures ShowLabel(count) ==> FillTier(count) != Fallback
  {
    count > 0
  }

  /** What the map draws for one region shape. */
  datatype RegionView = RegionView(fill: Fill, text: TextColor, countLabel: Option<int>)

  /** The view of the region shape called `name`. */
  function ViewOf(counts: map<string, int>, name: string): (v: RegionView)
    ensures v.countLabel.Some? ==> v.countLabel.value > 0
    ensures name !in counts ==> v == RegionView(Gray, DarkText, None)
  {
    var count := CountFor(counts, name);
    RegionView(FillTier(count), TextTier(count), if ShowLabel(count) then Some(count) else None)
  }

  /**
   * The pair of Tailwind classes a region shape is drawn with: the path's
   * fill class, then the count label's text class.
   */
  function ShapeClasses(counts: map<string, int>, name: string): (c: (string, string))
    ensures name !in counts ==> c == ("fill-gray-300 dark:fill-gray-600", "fill-gray-800 dark:fill-gray-200")
    ensures c.0 == "fill-gray-300 dark:fill-gray-600" <==> CountFor(counts, name) == 0
    ensures c.0 == "fill-gray-400 dark:fill-gray-500" <==> CountFor(counts, name) < 0
    ensures c.1 == "fill-white" <==> CountFor(counts, name) > 5
  {
    var v := ViewOf(counts, name);
    (FillClass(v.fill), TextClass(v.text))
  }

  /**
   * Over the tally of a mall list, a region shape is drawn gray and without
   * label exactly when no mall lies in that region; otherwise its label is
   * the number of malls there and its tier follows that number.
   */
  lemma {:induction false} ViewOfTally(counts: map<string, int>, malls: seq<MallRecord>, name: string)
    requires IsRegionTally(counts, malls)
    ensures ViewOf(counts, name).fill == Gray <==> name == [] || forall i :: 0 <= i < |malls| ==> malls[i].region != name
    ensures ViewOf(counts, name).countLabel.Some? <==> name != [] && exists i :: 0 <= i < |malls| && malls[i].region == name
    ensures name != [] ==> ViewOf(counts, name).fill == FillTier(CountOf(malls, name))
    ensures ViewOf(counts, name).countLabel.Some? ==> ViewOf(counts, name).countLabel.value == CountOf(malls, name)
  {
    CountPositiveIff(malls, name);
  }
}
