/** Failure-carrying results for the cipher engine.  Every Python exception the
    engine can raise becomes one `Error` value, so that each operation returns
    either its value or the error the source would raise. */
module Outcomes {

  datatype Option<+T> = None | Some(value: T)

  /** The exceptions the engine raises, one constructor per cause. */
  datatype Error =
    | UnknownRotorModel        // ValueError from Rotor.__init__
    | UnknownReflectorModel    // ValueError from Reflector.__init__
    | TooManySwaps             // ValueError from the Plugboard.swaps setter
    | SwapNotTwoCharacters     // ValueError from the Plugboard.swaps setter
    | CharacterSwappedTwice    // ValueError from the Plugboard.swaps setter
    | SubstringNotFound        // ValueError from str.index on the contact string
    | NoNotchTable             // KeyError from Rotor.WINDOWS[model]
    | EmptyRotorList           // IndexError from Rotors[-1]

  datatype Result<+T> = Ok(value: T) | Err(error: Error)
}
