/** Optional values: the bot's last requested direction is either unset or one heading. */
module Wrappers {

  datatype Option<T> = None | Some(value: T)
}
