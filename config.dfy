/** The settings the user fills in, and whether they are complete. */
module Config {
  import opened Wrappers

  /** What `Config` answers: the two roots the user writes into the script, the
      output of `whoami` and the first word of the output of `groups`, which is
      absent when `groups` prints nothing. */
  datatype Settings = Settings(installationRoot: string, sourceRoot: string, user: string, group: Option<string>)

  /** `Config.valid?`: Some(true) when every setting is non-empty, Some(false) when
      one of them is empty, and None when `groups` printed nothing and the check
      reaches the missing group, where Ruby raises. */
  function Valid(c: Settings): (r: Option<bool>)
    ensures r == Some(true) <==>
              c.installationRoot != "" && c.sourceRoot != "" && c.user != "" && c.group.Some? && c.group.value != ""
    ensures r.None? <==> c.installationRoot != "" && c.sourceRoot != "" && c.user != "" && c.group.None?
  {
    if c.installationRoot == "" || c.sourceRoot == "" || c.user == "" then Some(false)
    else match c.group
      case None => None
      case Some(g) => Some(g != "")
  }

  /** The script as shipped leaves both roots empty, so the check fails whoever runs it. */
  lemma ShippedSettingsAreInvalid(user: string, group: Option<string>)
    ensures Valid(Settings("", "", user, group)) == Some(false)
  {
  }
}
