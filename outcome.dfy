/** Result and error values shared by the pattern resolver and the importer. */
module Outcome {

  datatype Option<+T> = None | Some(value: T)

  /** The errors the loader reports to its callers. */
  datatype Error =
    | OutsideModules(dir: string)   // "directory `dir` outside available modules"
    | ReadDirFailed(dir: string)    // os.ReadDir could not read `dir`
    | NotExist                      // syscall.ENOENT: the importer has never heard of the path
    | DecodeFailed(reason: string)  // opening or decoding an export-data artifact failed
    | DepsFailed(reason: string)    // the dependency loader could not produce artifacts

  datatype Result<+T> = Ok(value: T) | Err(error: Error)
}
