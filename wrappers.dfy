// The optional value used wherever the plugin's TypeScript uses `null` or
// `undefined` for "absent".
module Wrappers {

  datatype Option<+T> = None | Some(value: T)
}
