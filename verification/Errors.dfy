/**
 * The exceptions the DDS reader and the decoders throw, and the Result and
 * Outcome wrappers through which the model returns them.
 */
module Errors {

  /** Which `verify`/`verifyNot` check of a record failed (the message of its `DDSInvalidException`). */
  datatype Invalid =
    | PixelFormatSize          // DDSPixelFormat: dwSize should be 32
    | PixelFormatFlagsEmpty    // DDSPixelFormat: dwFlags cannot be empty
    | HeaderSize               // DDSHeader: dwSize should be 124
    | HeaderFlagsMissing       // DDSHeader: dwFlags missing required flags
    | CapsMissing              // DDSHeader: dwCaps missing required caps
    | Caps3NotEmpty            // DDSHeader: dwCaps3 is not empty
    | Caps4NotEmpty            // DDSHeader: the check labelled dwCaps4
    | Reserved2NotZero         // DDSHeader: dwReserved2 not zero
    | BadMagic                 // DDS: magic number is not 'DDS '

  /** Why an `IllegalArgumentException` was thrown. */
  datatype IllegalCause =
    | NoFourCC                 // DDPF_FOURCC set but dwFourCC is four NUL bytes
    | NoDecoderForFourCC       // no decoder for the FourCC tag
    | InvalidPixelFormatFlags  // neither DDPF_FOURCC nor DDPF_RGB
    | NegativeCapacity         // ByteBuffer.allocate with a negative capacity

  datatype Exception =
    | DDSInvalid(reason: Invalid)          // DDSInvalidException
    | EOF                                  // EOFException from DataInputStream
    | IllegalArgument(cause: IllegalCause) // IllegalArgumentException
    | NegativeArraySize                    // NegativeArraySizeException
    | IndexOutOfBounds                     // ArrayIndexOutOfBounds / IndexOutOfBoundsException
    | BufferUnderflow                      // BufferUnderflowException from a ByteBuffer/IntBuffer
    | NoSuchElement                        // NoSuchElementException: no more data lines
    | UnsupportedOperation                 // UnsupportedOperationException

  datatype Result<+T> = Ok(value: T) | Err(error: Exception) {
    predicate IsFailure() { Err? }

    function PropagateFailure<U>(): Result<U>
      requires Err?
    {
      Err(error)
    }

    function Extract(): T
      requires Ok?
    {
      value
    }
  }

  datatype Outcome = Pass | Fail(error: Exception) {
    predicate IsFailure() { Fail? }

    function PropagateFailure<U>(): Result<U>
      requires Fail?
    {
      Err(error)
    }

    /** Runs the check `next` only when this one passed. */
    function Then(next: Outcome): Outcome {
      if Fail? then this else next
    }
  }
}
