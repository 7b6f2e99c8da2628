/** Option, Result and the error conditions the configurator can raise. */
module Wrappers {

  datatype Option<+T> = None | Some(value: T)

  /** The exceptions the modelled code raises, one constructor per kind. */
  datatype Error =
    | Unsupported(key: string)      // "Unsupported config: <key>" raised by load
    | BuildNotFound                 // "Build not found" raised by the build setter
    | TypeError                     // expanduser/os.path.join of a non-string, "%d" of a string, ...
    | FileNotFound(path: string)    // open() or os.listdir() of a missing path
    | NotADirectory(path: string)   // os.listdir() of a regular file
    | IsADirectory(path: string)    // open() of a directory
    | ValueError                    // tuple unpacking of the wrong number of fields
    | IndexError                    // indexing an empty string

  datatype Result<+T> = Ok(value: T) | Err(error: Error)
}
