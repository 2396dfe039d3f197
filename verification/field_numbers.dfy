/** Field numbers and the tags of the wire format. */
module FieldNumbers {
  import opened Wire
  import opened DescriptorProtos
  import opened Declarations

  /** The numbers that a field may have are those whose tags fit 32 bits, but for a thousand
      that are reserved. */
  lemma ProperNumbersFitTags(number: int)
    ensures NumberProper(number, false)
       <==> 0 < number && number * 8 + 7 < TWO_32 && !(19000 <= number < 20000)
  {
  }

  /** An extension range that ends in time has no other numbers. */
  lemma RangesFitTags(m: MessageProto, i: nat, number: int)
    requires RangesProper(m.ranges) && RangesBounded([m])
    requires i < |m.ranges| && InRange(number, m.ranges[i])
    ensures 0 < number && number * 8 + 7 < TWO_32
  {
    assert [m][0].ranges[i].end <= MAX_NUMBER + 1;
  }

  /** The largest number is that: a range that ends just behind it is accepted, and one that
      ends further on is not. */
  lemma LargestNumber(start: int, end: int)
    requires 0 < start < end
    ensures RangesBounded([MessageProto("M", [], [], [], [RangeProto(start, end)], [])])
       <==> (end - 1) * 8 + 7 < TWO_32
  {
    var m := MessageProto("M", [], [], [], [RangeProto(start, end)], []);
    assert [m][0] == m && m.ranges[0].end == end;
    assert RangesBounded(m.nested);
  }
}
