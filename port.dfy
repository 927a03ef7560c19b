/**
  The part of the serial port the terminal code can observe: the strings
  written to it, in order, and how many times it was closed. Opening,
  flushing, baud rate and the bytes on the wire are not part of this model.
 */
module Port {
  class SerialPort {
    var written: seq<string>
    var closeCount: nat

    constructor ()
      ensures written == [] && closeCount == 0
    {
      written := [];
      closeCount := 0;
    }

    /** `serialport.write(data)`. */
    method Write(data: string)
      modifies this
      ensures written == old(written) + [data]
      ensures closeCount == old(closeCount)
    {
      written := written + [data];
    }

    /** `serialport.close()`. */
    method Close()
      modifies this
      ensures closeCount == old(closeCount) + 1
      ensures written == old(written)
    {
      closeCount := closeCount + 1;
    }
  }
}
