/** The JavaScript values the wrappers in `index.js` and `chained-batch.js` tell apart. */
module Js {
  import opened Bytes

  datatype JsValue =
    | Undefined
    | JsNull
    | Str(s: string)
    | Buffer(bytes: Bytes)
    | Function(id: nat)
    | Other(id: nat)     // numbers, booleans, objects: passed on untouched

  /** `v === null || v === undefined`. */
  predicate Nullish(v: JsValue) {
    v.Undefined? || v.JsNull?
  }
}
