/** `RefreshInterval`: how often feeds are refreshed, from never (manually) to every eight hours. */
module RefreshIntervalModel {
  import opened Wrappers

  datatype RefreshInterval =
    | Manually
    | Every10Minutes
    | Every30Minutes
    | EveryHour
    | Every2Hours
    | Every4Hours
    | Every8Hours

  /** `allCases`, in declaration order. */
  const AllCases: seq<RefreshInterval> := [Manually, Every10Minutes, Every30Minutes, EveryHour, Every2Hours, Every4Hours, Every8Hours]

  function RawValue(x: RefreshInterval): int {
    match x
    case Manually => 1
    case Every10Minutes => 2
    case Every30Minutes => 3
    case EveryHour => 4
    case Every2Hours => 5
    case Every4Hours => 6
    case Every8Hours => 7
  }

  /** `init?(rawValue:)`. */
  function FromRawValue(raw: int): (r: Option<RefreshInterval>)
    ensures r.Some? ==> RawValue(r.value) == raw
  {
    if 1 <= raw <= 7 then Some(AllCases[raw - 1]) else None
  }

  /** The raw values are exactly 1 to 7, in declaration order, and name the intervals one to one. */
  lemma RawValues(x: RefreshInterval, raw: int)
    ensures FromRawValue(RawValue(x)) == Some(x)
    ensures FromRawValue(raw).Some? <==> 1 <= raw <= 7
    ensures forall i :: 0 <= i < |AllCases| ==> RawValue(AllCases[i]) == i + 1
  {
  }

  /** `inSeconds()`: whole seconds, 0 for manual refreshing. */
  function InSeconds(x: RefreshInterval): (r: int)
    ensures r == 0 <==> x == Manually
  {
    match x
    case Manually => 0
    case Every10Minutes => 10 * 60
    case Every30Minutes => 30 * 60
    case EveryHour => 60 * 60
    case Every2Hours => 2 * 60 * 60
    case Every4Hours => 4 * 60 * 60
    case Every8Hours => 8 * 60 * 60
  }

  /** A later case refreshes less often. */
  lemma InSecondsIncreasing(a: RefreshInterval, b: RefreshInterval)
    ensures RawValue(a) < RawValue(b) <==> InSeconds(a) < InSeconds(b)
  {
  }

  /** `description()`, untranslated. */
  function Description(x: RefreshInterval): string {
    match x
    case Manually => "Manually"
    case Every10Minutes => "Every 10 Minutes"
    case Every30Minutes => "Every 30 Minutes"
    case EveryHour => "Every Hour"
    case Every2Hours => "Every 2 Hours"
    case Every4Hours => "Every 4 Hours"
    case Every8Hours => "Every 8 Hours"
  }

  /** `id`, the description. */
  function Id(x: RefreshInterval): string {
    Description(x)
  }

  /** No two intervals share an id, as `Identifiable` needs. */
  lemma IdsDistinct(a: RefreshInterval, b: RefreshInterval)
    ensures Id(a) == Id(b) <==> a == b
  {
    if a != b {
      var da, db := Id(a), Id(b);
      if |da| == |db| {
        // Cases of equal length differ in their seventh character.
        assert da[6] != db[6];
      }
    }
  }
}
