/** Option and the outcome of a call that may raise, shared by every module. */
module Wrappers {

  datatype Option<+T> = None | Some(value: T)

  /**
   * The exceptions the modelled code raises: its own, Python's division by zero, and
   * cv2.error from an OpenCV call whose arguments OpenCV refuses.
   */
  datatype Error = ValueError(message: string) | ZeroDivisionError | FileNotFoundError(path: string) | CvError

  /** A Python call either returns a value or raises. */
  datatype Result<+T> = Ok(value: T) | Err(error: Error)
}
