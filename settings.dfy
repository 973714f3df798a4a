// The configuration the suggester reads and the candidate-pool modes.
module Settings {

  /** The saved settings that influence suggestions: whether a space after a
      word triggers suggestions, and the secondary trigger text. */
  datatype Config = Config(autoSpace: bool, secondaryTrigger: string)

  /** The defaults the plugin starts from. */
  const DefaultConfig: Config := Config(false, ";")

  /** The primary trigger: a space when `autoSpace` is on, otherwise the
      sentinel `"!null!"`, which no single typed character equals. */
  function PrimaryTrigger(cfg: Config): string
  {
    if cfg.autoSpace then " " else "!null!"
  }

  /** The character that broadens a session to all vault titles. */
  const AllLinksTrigger: string := ","

  /** The `linkMode` of a session: which candidate pools it draws from.
      `Unset` is the empty string the session starts with. */
  datatype Mode = Yaml | All | AllSemi | YamlComplete | Unset
}
