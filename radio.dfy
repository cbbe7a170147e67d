/** The radio models the companion can flash, and their display names. */
module Radio {

  /** `RadioHW`, in its declaration order. */
  datatype RadioHW = Mduv3x0 | Twrplus | Md3x0

  /** `RadioHW::all`: the entries of the hardware selector, each model exactly once. */
  function All(): (hw: seq<RadioHW>)
    ensures |hw| == 3
    ensures forall r :: r in hw
    ensures forall i, j | 0 <= i < j < |hw| :: hw[i] != hw[j]
  {
    var hw := [Md3x0, Mduv3x0, Twrplus];
    assert forall r :: Position(r) < |hw| && hw[Position(r)] == r && r in hw;
    hw
  }

  /** Where a model stands in the selector. */
  function Position(r: RadioHW): nat {
    match r
    case Md3x0 => 0
    case Mduv3x0 => 1
    case Twrplus => 2
  }

  /** `From<RadioHW> for String`: the label shown for a model. */
  function Name(r: RadioHW): string {
    match r
    case Md3x0 => "MD3x0"
    case Mduv3x0 => "MD-UV3x0"
    case Twrplus => "T-TWR Plus"
  }

  /** Two models never share a label. */
  lemma NameInjective(a: RadioHW, b: RadioHW)
    ensures Name(a) == Name(b) ==> a == b
  {
  }

  /** The selector lists the labels in this order. */
  lemma SelectorLabels()
    ensures |All()| == 3
    ensures [Name(All()[0]), Name(All()[1]), Name(All()[2])] == ["MD3x0", "MD-UV3x0", "T-TWR Plus"]
  {
  }
}
