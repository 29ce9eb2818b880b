// The format-neutral subtitle block both parsers convert into and the
// emitter consumes (`zimu_ast::Block`).
module Ast {
  import opened Times

  /** One cue: when it is shown, and its text lines. */
  datatype Block = Block(start: Time, end: Time, content: seq<string>)
}
