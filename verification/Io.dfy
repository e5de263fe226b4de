/** Non-blocking reads and writes as the daemon meets them: any partial, blocked, interrupted or failed call. */
module Io {
  import opened Bytes

  datatype IoError = QuotaExceeded | WriteZero | InvalidData | InvalidInput | UnexpectedEof | CarrierFailure

  /** What one plaintext write to the TLS carrier may answer; at most the offered octets are taken. */
  datatype WriteStep = Accepts(count: nat) | WriteBlocks | WriteInterrupted | WriteFails

  /** Steps after which a drain continues: a partial write or an interruption. */
  predicate GoesOn(step: WriteStep) { (step.Accepts? && step.count > 0) || step.WriteInterrupted? }

  /** What one plaintext read may answer: octets at hand (none means end of stream), or no data. */
  datatype ReadStep = Chunk(octets: Octets) | ReadBlocks | ReadInterrupted | ReadFails
}
