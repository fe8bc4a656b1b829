/** Strings as .NET holds them. */
module Texts {
  /** A .NET string: UTF-16 code units. */
  type Text = seq<bv16>
}
