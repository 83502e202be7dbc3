/** The plugin's configuration: three boolean options resolved once, at setup,
    against their defaults (lodash `defaults`, which fills in only the options
    the caller left undefined). */
module Options {

  datatype Option<T> = None | Some(value: T)

  /** Options as a caller passes them. `None` for the whole record stands for a
      missing or falsy argument; `None` for one option stands for an undefined
      property, and `Some(b)` for a given one, by its truthiness. */
  datatype UserOptions = UserOptions(error: Option<bool>, same: Option<bool>, diff: Option<bool>)

  /** The resolved configuration the plugin reads while processing files. */
  datatype Config = Config(error: bool, same: bool, diff: bool)

  /** error: fail on every duplicate; same: fail when a duplicate's contents
      differ; diff: attach a character diff to that failure. */
  const Defaults := Config(false, true, false)

  /** An option that was given keeps its value; an undefined one takes `d`. */
  function OrDefault(o: Option<bool>, d: bool): bool
  {
    match o
    case Some(b) => b
    case None => d
  }

  /** The configuration the plugin runs with, given the caller's options. */
  function Configure(options: Option<UserOptions>): (c: Config)
    ensures options.None? ==> c == Defaults
    ensures c.error <==> options.Some? && options.value.error == Some(true)
    ensures c.same <==> !(options.Some? && options.value.same == Some(false))
    ensures c.diff <==> options.Some? && options.value.diff == Some(true)
  {
    var given := if options.Some? then options.value else UserOptions(None, None, None);
    Config(OrDefault(given.error, Defaults.error),
           OrDefault(given.same, Defaults.same),
           OrDefault(given.diff, Defaults.diff))
  }

  /** The options record that gives every option of `c` explicitly. */
  function Explicit(c: Config): UserOptions
  {
    UserOptions(Some(c.error), Some(c.same), Some(c.diff))
  }

  /** Explicitly given values are kept: every configuration is reached by
      spelling it out, and an options record with nothing defined gives the
      defaults, as a missing one does. */
  lemma ConfigureKeepsGiven(c: Config)
    ensures Configure(Some(Explicit(c))) == c
    ensures Configure(Some(UserOptions(None, None, None))) == Configure(None) == Defaults
  {
  }
}
