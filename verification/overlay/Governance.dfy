/** What `llm_field_governance.yaml` says about a dp_id, as far as the tools act on it. */
module Governance {
  import opened Basics

  datatype Tier = CheapExtract | CheapClassify | Analysis | WebAnalysis | OtherTier

  datatype Route = LlmClose | LlmWeb | OtherRoute

  datatype Trigger =
    StaticPicture | ExplicitRefresh | SourceFingerprintChanged | QuarterlyFiling | AnnualFiling | EventDriven | OtherTrigger

  datatype Entry = Entry(tier: Option<Tier>, route: Route, trigger: Trigger, dependencies: seq<string>)

  type Registry = map<string, Entry>

  function TierOf(dp: string, g: Registry): Option<Tier> {
    if dp != "" && dp in g then g[dp].tier else None
  }

  /** `EVENT_DRIVEN_DP_IDS`, as derived from governance at import. */
  function EventDrivenIds(g: Registry): set<string> {
    set dp | dp in g && g[dp].trigger.EventDriven?
  }
}
