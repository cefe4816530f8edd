/** The server's error enumeration (src/error.rs). Errors that the source
    wraps from a library (I/O, JSON, SQL, migration) carry that library
    error's rendered message. */
module Errors {

  datatype RecipeServerError =
    | JokesNotFound(ioError: string)
    | JokeMisformat(jsonError: string)
    | InvalidDbUri(uri: string)
    | SqlxError(sqlxError: string)
    | MigrateError(migrateError: string)

}
