/** Enumeration helpers of the core: implementation names and the specific-config lookup. */
module AdecEnums {
  import opened AdecTypes

  /** Name of an implementation value; every value but FDK_AAC is "UNKNOWN". */
  function ImplemStr(implem: int): (s: string)
    ensures s == "FDK_AAC" <==> implem == IMPLEM_FDK_AAC
    ensures s != "FDK_AAC" ==> s == "UNKNOWN"
  {
    if implem == IMPLEM_FDK_AAC then "FDK_AAC" else "UNKNOWN"
  }

  /**
   * The implementation-specific configuration, when it is present, when the
   * base configuration names the requested implementation, and when the
   * extension names the same implementation as the base configuration.
   */
  function ConfigGetSpecific(config: Config, implem: int): (r: Option<ConfigImpl>)
    ensures config.implemCfg.None? ==> r.None?
    ensures config.implem != implem ==> r.None?
    ensures config.implemCfg.Some? && config.implemCfg.value.implem != config.implem ==> r.None?
    ensures r.Some? ==> r == config.implemCfg && r.value.implem == config.implem == implem
  {
    if config.implemCfg.None? then None
    else if config.implem != implem then None
    else if config.implemCfg.value.implem != config.implem then None
    else config.implemCfg
  }

  /**
   * The three checks are all the lookup does: a configuration whose extension
   * matches the requested implementation always gets it back.
   */
  lemma ConfigGetSpecificComplete(config: Config, implem: int)
    requires config.implemCfg == Some(ConfigImpl(implem)) && config.implem == implem
    ensures ConfigGetSpecific(config, implem) == Some(ConfigImpl(implem))
  {
  }

  /**
   * A configuration that keeps the documented rule (extension names the base
   * implementation, which is not AUTO) never has its extension handed out for
   * AUTO or for another implementation.
   */
  lemma ConfigGetSpecificOnlyForOwnImplem(config: Config, implem: int)
    requires config.implemCfg.Some? ==> config.implemCfg.value.implem == config.implem != IMPLEM_AUTO
    ensures ConfigGetSpecific(config, implem).Some? <==> config.implemCfg.Some? && implem == config.implem
    ensures ConfigGetSpecific(config, IMPLEM_AUTO).None?
  {
  }
}
