/** QUERY_DIRECTORY behind another response of the same message. */
module CompoundPaging {
  import opened Bytes
  import opened Headers
  import opened Compound
  import Paging

  /** CREATE then QUERY_DIRECTORY in one message: the offset in the second response leads past the end. */
  lemma QueryAfterCreateIsMisplaced(create: Response, header: Header, buffer: seq<byte>)
    requires |create.body| == 89 && |buffer| < 0x1_0000_0000
    ensures
      var front := LinkPrevious(Emit(create), Some(0));
      var out := front + Encode(header);
      && |front| == 160
      && Field(out + Paging.Body(|out|, buffer), |front| + 66, 2) == 232
      && Paging.Located(out + Paging.Body(|out|, buffer), |front|) == None
  {
    hide Encode, Field, PutField;
    var front := LinkPrevious(Emit(create), Some(0));
    var out := front + Encode(header);
    assert |Emit(create)| == 153 && Padding(153) == 7;
    Paging.BodyFields(out, buffer);
    Paging.LocatedIffFirst(out, buffer);
  }
}
