/** The fixed-width slot layout of the data files cars.txt and models.txt:
    each add writes `record.ljust(500) + "\n"`. */
module Slots {
  import opened TextFiles

  /** The width `str.ljust` pads a serialised record to */
  const SlotWidth: nat := 500

  /** s.ljust(width): s followed by spaces up to `width` characters; a
      longer s is kept whole, neither cut nor refused */
  function LJust(s: string, width: nat): (r: string)
    ensures |r| == if |s| < width then width else |s|
    ensures r[..|s|] == s
    ensures forall i :: |s| <= i < |r| ==> r[i] == ' '
  {
    if |s| < width then s + seq(width - |s|, _ => ' ') else s
  }

  /** One slot of a data file: the record, spaces up to SlotWidth
      characters, and a newline */
  function Slot(record: string): (r: string)
    ensures |r| == (if |record| < SlotWidth then SlotWidth else |record|) + 1
    ensures r[..|record|] == record
    ensures forall i :: |record| <= i < |r| - 1 ==> r[i] == ' '
    ensures r[|r| - 1] == '\n'
  {
    var p := LJust(record, SlotWidth);
    assert (p + "\n")[..|record|] == p[..|record|];
    p + "\n"
  }

  /** The shape every slot has, whatever its record */
  predicate IsSlot(x: string) {
    |x| > SlotWidth && x[|x| - 1] == '\n'
  }

  predicate EndsInSpace(s: string) {
    s != [] && s[|s| - 1] == ' '
  }

  /** A record that does not end in a space (as a JSON text never does) can
      be told from its slot */
  lemma SlotInjective(a: string, b: string)
    requires !EndsInSpace(a) && !EndsInSpace(b)
    requires Slot(a) == Slot(b)
    ensures a == b
  {
    var r := Slot(a);
    if |a| == |b| {
      assert a == r[..|a|] == b;
    }
  }

  /** When every record fitted in SlotWidth characters, slot p of a data file
      starts at character p * (SlotWidth + 1) */
  lemma {:induction false} SlotAtOffset(slots: seq<string>, p: nat)
    requires forall i :: 0 <= i < |slots| ==> |slots[i]| == SlotWidth + 1
    requires p < |slots|
    ensures |Concat(slots)| == |slots| * (SlotWidth + 1)
    ensures Concat(slots)[p * (SlotWidth + 1)..(p + 1) * (SlotWidth + 1)] == slots[p]
    decreases |slots|
  {
    var w := SlotWidth + 1;
    var tail := Concat(slots[1..]);
    assert Concat(slots) == slots[0] + tail;
    if |slots| == 1 {
      assert tail == "";
    } else {
      SlotAtOffset(slots[1..], if p == 0 then 0 else p - 1);
      assert |tail| == (|slots| - 1) * w;
    }
    if p > 0 {
      assert slots[1..][p - 1] == slots[p];
      assert (p - 1) * w + w == p * w;
      assert Concat(slots)[p * w..(p + 1) * w] == tail[(p - 1) * w..p * w];
    }
  }
}
