/** Values that may be absent, and the error type of the file systems. */
module Wrappers {

  datatype Option<+T> = None | Some(value: T)

  datatype FsError =
    | FileNotFound | FileExists | PermissionDenied | InvalidFileDescriptor | InvalidSeek | DiskFull
    | NotADirectory | DirectoryNotEmpty | IsADirectory | InvalidPath | NotSupported | InvalidInput
    | UnexpectedEof | Io

  datatype Result<+T> = Ok(value: T) | Err(error: FsError)
}
