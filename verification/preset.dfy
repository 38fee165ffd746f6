/** `TaskInputPreset` (Dona/Utils/TaskInputPreset.swift): the four choices of the edit form. */
module Presets {

  datatype Preset = Inbox | Today | Plan | Later

  /** The preset's raw value, also its label in the form. */
  function RawValue(p: Preset): string {
    match p
    case Inbox => "Inbox"
    case Today => "Today"
    case Plan => "Plan"
    case Later => "Later"
  }

  /** `TaskInputPreset.allCases`, in declaration order, each once. */
  function AllPresets(): (ps: seq<Preset>)
    ensures ps == [Inbox, Today, Plan, Later]
    ensures |ps| == 4
    ensures forall p: Preset :: p in ps
    ensures forall i, j :: 0 <= i < j < |ps| ==> ps[i] != ps[j]
  {
    var ps := [Inbox, Today, Plan, Later];
    assert forall p: Preset :: p in ps by {
      forall p: Preset ensures p in ps {
        assert p == ps[0] || p == ps[1] || p == ps[2] || p == ps[3];
      }
    }
    ps
  }
}
