/** The optional value used for the sensor reading and the device handle. */
module Wrappers {

  /** `None` stands for the C# `null` of a nullable field. */
  datatype Option<+T> = None | Some(value: T)
}
