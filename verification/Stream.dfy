/** The part of `ConsistentOutputStream` the printers use: everything written is appended. */
module Stream {
  import opened Bytes

  class OutputStream {
    var data: bytes

    constructor ()
      ensures data == []
    {
      data := [];
    }

    method WriteSimple(text: bytes)
      modifies this
      ensures data == old(data) + text
    {
      data := data + text;
    }
  }
}
