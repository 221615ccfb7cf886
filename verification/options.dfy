/** The optional value returned by a map lookup (JavaScript's `undefined`) and read from
    an optional interaction field (discord.js's `null`). */
module Options {

  datatype Option<+T> = None | Some(value: T)
}
