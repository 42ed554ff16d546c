/** Optional values and Lua registry references. */
module Wrappers {
  /** A C pointer that may be NULL, or a Lua value that may be nil. */
  datatype Option<+T> = None | Some(value: T)

  /** A reference into the Lua registry (`luaL_ref`), or `LUA_NOREF`. */
  datatype Callback = NoRef | Ref(id: int)
}
