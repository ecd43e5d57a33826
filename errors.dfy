/**
 * The exceptions pip-accel raises (pip_accel/exceptions.py) together with the
 * built-in Python errors the modelled code raises or catches.
 */
module Errors {

  /** The errno values the modelled file operations distinguish. */
  datatype Errno = ENOENT | EEXIST | ENOTDIR | EISDIR | EACCES

  datatype Error =
    // pip_accel/exceptions.py
    | NothingToDoError
    | EnvironmentMismatchError
    | InvalidSourceDistribution(reason: string)
    | BuildFailed(reason: string)
    | NoBuildOutput(reason: string)
    | UnknownDistributionFormat
    | CacheBackendError(reason: string)
    | CacheBackendDisabledError(reason: string)
    | DependencyInstallationRefused
    | DependencyInstallationFailed
    // errors raised by pip, by the standard library or by the interpreter
    | DistributionNotFound
    | TypeError(reason: string)
    | ValueError(reason: string)
    | AttributeError(name: string)
    | OsError(errno: Errno)
    | Raised(reason: string)
}
