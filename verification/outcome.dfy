/** How a modelled call ends: with a value, with `exit(n)`, with a Python exception nobody
    catches, or, for the calibration capture loop, still waiting for camera frames. */
module Outcome {

  /** The uncaught Python exceptions the modelled code can end with. */
  datatype PyError =
    | KeyError(key: string)            // a dict lookup on a key the dict does not hold
    | TypeError                        // subscripting or comparing a value of the wrong type
    | ValueError                       // numpy refusing the shape of the world grid
    | IndexError                       // reading a solver matrix entry that does not exist
    | UnboundLocalError(name: string)  // reading a local that no statement has assigned
    | OpenCvError                      // `cv2.error`: the solver refusing its input, or the corner detector its pattern size

  /** Why a run stopped without a value. */
  datatype Halt =
    | Exit(code: int)
    | Raise(error: PyError)
    | AwaitingFrames  // the frame script ended while the capture loop still polls the camera

  datatype Option<+T> = None | Some(value: T)

  /** A value, or the reason the run stopped; usable with `:-`. */
  datatype Result<+T> = Ok(value: T) | Stop(halt: Halt) {

    predicate IsFailure() {
      Stop?
    }

    function PropagateFailure<U>(): Result<U>
      requires Stop?
    {
      Stop(halt)
    }

    function Extract(): T
      requires Ok?
    {
      value
    }
  }
}
