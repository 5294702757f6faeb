/** Optional values, used for the driver's nullable `struct mmc_data *`. */
module Wrappers {
  datatype Option<+T> = None | Some(value: T)
}
