/** The difficulty chosen once per game: a dialog index mapped to the pause between two moves. */
module Difficulty {
  import opened Wrappers

  /** Milliseconds between two moves at each level. */
  const EasyInterval: int := 500
  const NormalInterval: int := 300
  const HardInterval: int := 100
  const HellInterval: int := 50

  /** The labels offered by the dialog, in the order of its indices. */
  const Options: seq<string> := ["Easy", "Normal", "Hard", "Hell"]

  /** The chosen level: its move interval and its label. */
  datatype Setting = Setting(interval: int, mode: string)

  /** The switch over the dialog index, with its fallback to the normal interval. */
  function SwitchInterval(response: int): (interval: int)
    ensures 0 <= response < 4 ==> interval == [EasyInterval, NormalInterval, HardInterval, HellInterval][response]
    ensures !(0 <= response < 4) ==> interval == NormalInterval
  {
    match response
    case 0 => EasyInterval
    case 1 => NormalInterval
    case 2 => HardInterval
    case 3 => HellInterval
    case _ => NormalInterval
  }

  /**
   * The setting for a dialog index. The label is read from the option array
   * before the switch runs, so an index outside it (a closed dialog gives -1)
   * fails there, modelled as None, and the switch's fallback is never used.
   */
  function ChooseSetting(response: int): (r: Option<Setting>)
    ensures r.Some? <==> 0 <= response < |Options|
    ensures r.Some? ==> r.value.mode == Options[response]
    ensures r.Some? ==> r.value.interval == [EasyInterval, NormalInterval, HardInterval, HellInterval][response]
  {
    if 0 <= response < |Options| then Some(Setting(SwitchInterval(response), Options[response]))
    else None
  }

  /**
   * Each label gets its own interval, Hell the shortest and Easy the longest:
   * a later option in the dialog never moves the snake more slowly.
   */
  lemma SettingOrder(i: int, j: int)
    requires 0 <= i <= j < |Options|
    ensures ChooseSetting(i).Some? && ChooseSetting(j).Some?
    ensures ChooseSetting(j).value.interval <= ChooseSetting(i).value.interval
    ensures i < j ==> ChooseSetting(j).value.interval < ChooseSetting(i).value.interval
    ensures ChooseSetting(1).value == Setting(NormalInterval, "Normal")
    ensures ChooseSetting(2).value == Setting(HardInterval, "Hard")
    ensures ChooseSetting(3).value == Setting(HellInterval, "Hell") && HellInterval <= ChooseSetting(i).value.interval
    ensures ChooseSetting(0).value == Setting(EasyInterval, "Easy") && ChooseSetting(i).value.interval <= EasyInterval
  {
  }
}
