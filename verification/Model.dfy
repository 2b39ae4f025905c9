/**
 The records that configuration files hold, once their JSON is decoded
 (src/model/rule.rs, src/model/link.rs, src/model/res.rs).
 */
module Model {
  import opened Common
  import opened RuleEngine
  import opened RuleParser

  /** A 32-bit float of a decoded file. */
  datatype Number = Finite(value: real) | NotFinite

  datatype LinkSpec = LinkSpec(pri: Number, isNeg: bool, rule: string, reses: seq<string>)

  datatype ResSpecItem = ResSpecItem(contentType: string, key: string, data: string)

  /** The bytes of a file, by what each loader decodes from them: `None` where
      the bytes cannot be read or are not a record of that kind. */
  datatype Blob = Blob(ruleText: Option<string>, link: Option<LinkSpec>, res: Option<seq<ResSpecItem>>)

  datatype Link = Link(pri: real, isNeg: bool, rule: string, reses: seq<string>)

  function LoadRule(b: Blob): Option<Condition> {
    match b.ruleText
    case None => None
    case Some(text) => ParseRule(text)
  }

  function LoadLink(b: Blob): Option<Link> {
    match b.link
    case Some(LinkSpec(Finite(pri), isNeg, rule, reses)) => Some(Link(pri, isNeg, rule, reses))
    case _ => None
  }

  function LoadRes(b: Blob): Option<seq<ResSpecItem>> { b.res }
}
