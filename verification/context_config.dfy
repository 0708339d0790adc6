/**
 * `parse` of the second configuration loader (src/context/config.rs). It filters and
 * splits exactly as the first loader's `parse_config` does; only the spelling of the
 * filter differs.
 */
module ContextConfig {
  import opened Text
  import opened ConfigTokens
  import RenderConfig

  /** Every argument is a non-empty run free of ASCII whitespace, and together they hold
      exactly the non-whitespace characters of the lines that are not comments, in order. */
  function Parse(config: string): (r: seq<string>)
    ensures WellFormed(r)
    ensures Flatten(r) == RemoveAsciiWhitespace(Flatten(KeptLines(Lines(config))))
  {
    TokensWellFormed(Lines(config));
    TokensAreKeptText(Lines(config));
    Tokens(config)
  }

  /** Both loaders read a configuration text into the same arguments. */
  lemma LoadersAgree(config: string)
    ensures Parse(config) == RenderConfig.ParseConfig(config)
  {
  }
}
