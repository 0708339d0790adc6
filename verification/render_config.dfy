/**
 * `parse_config` of the first configuration loader (src/render/context/config.rs): the
 * text of a configuration file turned into the arguments handed to the command-line parser.
 */
module RenderConfig {
  import opened Text
  import opened ConfigTokens

  /** Every argument is a non-empty run free of ASCII whitespace, and together they hold
      exactly the non-whitespace characters of the lines that are not comments, in order. */
  function ParseConfig(config: string): (r: seq<string>)
    ensures WellFormed(r)
    ensures Flatten(r) == RemoveAsciiWhitespace(Flatten(KeptLines(Lines(config))))
  {
    TokensWellFormed(Lines(config));
    TokensAreKeptText(Lines(config));
    Tokens(config)
  }
}
