/** What an in-memory index holds (src/cfg_center/cfgindex.rs). */
module IndexData {
  import opened RuleEngine

  datatype IdxLinkItem = IdxLinkItem(pri: real, isNeg: bool, rulePath: string, absResPath: string, linkPath: string)

  datatype KeyValuePair = KeyValuePair(contentType: string, key: string, value: string)

  type RuleMap = map<string, Condition>
  type LinkMap = map<string, seq<IdxLinkItem>>
  type ResMap = map<string, seq<KeyValuePair>>

  datatype Indices = Indices(rules: RuleMap, links: LinkMap, reses: ResMap)
}
