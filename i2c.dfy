/**
 * The I2C device wrapper the LED controller is bound to. Its implementation is not
 * part of this model: the device records every transaction in `log`, and what the
 * chip answers to the k-th transaction (counting from 0) is given by `oracle`.
 */
module I2c {
  import opened BoundedInts

  datatype Transaction =
    | WriteBlock(register: uint8, data: seq<uint8>)
    | ReadBlock(register: uint8, length: nat)
    | ReadByte(register: uint8)

  /** The chip's answers, indexed by the sequence number of the transaction. */
  datatype Oracle = Oracle(
    writeResult: nat -> int32,
    blockData: nat -> seq<uint8>,
    byteData: nat -> uint8)

  class Device {
    const address: uint8
    const oracle: Oracle
    var log: seq<Transaction>

    constructor (address: uint8, oracle: Oracle)
      ensures this.address == address && this.oracle == oracle && log == []
    {
      this.address := address;
      this.oracle := oracle;
      log := [];
    }

    /** One block write; the result is the chip's answer to it. */
    method WriteBlockData(register: uint8, data: seq<uint8>) returns (result: int32)
      modifies this
      ensures log == old(log) + [WriteBlock(register, data)]
      ensures result == oracle.writeResult(|old(log)|)
    {
      result := oracle.writeResult(|log|);
      log := log + [WriteBlock(register, data)];
    }

    /** One block read of `length` bytes; the chip may answer with fewer or more. */
    method ReadBlockData(register: uint8, length: nat) returns (data: seq<uint8>)
      modifies this
      ensures log == old(log) + [ReadBlock(register, length)]
      ensures data == oracle.blockData(|old(log)|)
    {
      data := oracle.blockData(|log|);
      log := log + [ReadBlock(register, length)];
    }

    /** One single-byte register read. */
    method ReadByteData(register: uint8) returns (b: uint8)
      modifies this
      ensures log == old(log) + [ReadByte(register)]
      ensures b == oracle.byteData(|old(log)|)
    {
      b := oracle.byteData(|log|);
      log := log + [ReadByte(register)];
    }
  }
}
