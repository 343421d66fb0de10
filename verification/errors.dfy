/** The error values the gateway distinguishes. Every error it only passes
    along (from the torrent engine, the file system or the listener) is an
    `External` error. */
module Errors {

  datatype Error =
    | EmptyMagnetLink            // server.ErrEmptyMagnetLink
    | EmptyPath                  // server.ErrEmptyPath
    | CouldNotFindPath           // server.ErrCouldNotFindPath
    | Canceled                   // context.Canceled
    | ServerClosed               // http.ErrServerClosed
    | External(message: string)  // any other error
}
