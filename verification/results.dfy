/** Failure-carrying values shared by every loader in the library.

The C++ code reports problems in three ways: a thrown WavefrontException
(a file that cannot be opened), a std::out_of_range thrown by vector::at,
and a null-pointer dereference. The model turns each of them into an
explicit `LoadError`, so that a load either yields a value or names the
fault that would have aborted it.
 */
module Results {

  /** A nullable reference: the model's stand-in for a raw pointer. */
  datatype Option<+T> = None | Some(value: T)

  /** Why a load (or a draw) would have been aborted. */
  datatype LoadError =
    | CannotOpen(path: string)   // ifstream::is_open() was false
    | MissingToken               // vector::at past the end of a token list
    | BadIndex                   // vector::at with a face or texture index out of range
    | NoOpenPart                 // `usemtl` dereferences a null Part
    | NoMaterial                 // `Kd` / `map_Kd` dereference a null Material
    | NullGroupMaterial          // a group with faces is uploaded without a Material
    | NullDrawMaterial           // a group is drawn without a Material
    | TextureFailed(path: string) // the external image decoder rejected the file
    | NoFrame                    // `t` dereferences a null Frame
    | FrameOutOfRange            // Animation frames.at(frame) out of range
    | EntryOutOfRange            // a Frame's parallel vectors read past their end

  datatype Result<+T> = Ok(value: T) | Err(error: LoadError) {

    predicate IsFailure() {
      Err?
    }

    function PropagateFailure<U>(): Result<U>
      requires Err?
    {
      Err(error)
    }

    function Extract(): T
      requires Ok?
    {
      value
    }
  }

  /** `std::vector::at` on a list of tokens: the token, or MissingToken. */
  function TokenAt(tokens: seq<string>, i: int): (r: Result<string>)
    ensures r.Ok? <==> 0 <= i < |tokens|
    ensures r.Ok? ==> r.value == tokens[i]
    ensures r.Err? ==> r.error == MissingToken
  {
    if 0 <= i < |tokens| then Ok(tokens[i]) else Err(MissingToken)
  }

  /** `std::vector::at` on a list of points (the index converted from a signed
      int, so a negative index is out of range too). */
  function ElementAt<T>(xs: seq<T>, i: int, error: LoadError): (r: Result<T>)
    ensures r.Ok? <==> 0 <= i < |xs|
    ensures r.Ok? ==> r.value == xs[i]
    ensures r.Err? ==> r.error == error
  {
    if 0 <= i < |xs| then Ok(xs[i]) else Err(error)
  }
}
