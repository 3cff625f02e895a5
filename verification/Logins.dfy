/** Who counts as a maintainer, and how large a change a Project auto-approves. */
module Logins {
  import opened Wrappers

  datatype Scm = Scm(botLogin: string, maintainers: seq<string>)

  /** A missing Project reads as `Project(None, "")`. */
  datatype Project = Project(scm: Option<Scm>, autoApproveMax: string)

  /** A Repository's maintainer list when it sets one; None inherits the Project's. */
  type Override = Option<seq<string>>

  const OFF := "off"

  function Without(list: seq<string>, bot: string): (r: seq<string>)
    ensures forall x :: x in r <==> x in list && x != bot
  {
    if list == [] then []
    else (if list[0] != bot then [list[0]] else []) + Without(list[1..], bot)
  }

  function WithoutBot(p: Project, list: seq<string>): seq<string> {
    if p.scm.None? || p.scm.value.botLogin == "" then list else Without(list, p.scm.value.botLogin)
  }

  method WithoutBotLogin(p: Project, list: seq<string>) returns (out: seq<string>)
    ensures out == WithoutBot(p, list)
  {
    if p.scm.None? || p.scm.value.botLogin == "" || list == [] {
      return list;
    }
    var bot := p.scm.value.botLogin;
    out := [];
    for i := 0 to |list|
      invariant out + Without(list[i..], bot) == Without(list, bot)
    {
      assert list[i..][0] == list[i] && list[i..][1..] == list[i + 1..];
      if list[i] != bot {
        out := out + [list[i]];
      }
    }
    assert list[|list|..] == [];
  }

  function ListedMaintainers(p: Project, o: Override): seq<string> {
    match o
    case Some(list) => list
    case None => if p.scm.Some? then p.scm.value.maintainers else []
  }

  function EffectiveMaintainers(p: Project, o: Override): seq<string> {
    WithoutBot(p, ListedMaintainers(p, o))
  }

  predicate IsMaintainer(p: Project, o: Override, login: string) {
    && login != ""
    && !(p.scm.Some? && login == p.scm.value.botLogin)
    && login in EffectiveMaintainers(p, o)
  }

  /** A maintainer is exactly a listed login that is neither empty nor the bot, so
      listing the bot, for the Project or for one Repository, makes it no maintainer,
      and an empty list makes nobody one. */
  lemma MaintainerIffListedHuman(p: Project, o: Override, login: string)
    ensures IsMaintainer(p, o, login) <==>
            login in ListedMaintainers(p, o) && login != "" && !(p.scm.Some? && login == p.scm.value.botLogin)
  {
  }

  // ---------- significance ----------

  function Rank(level: string): Option<nat> {
    if level == "patch" then Some(1)
    else if level == "minor" then Some(2)
    else if level == "major" then Some(3)
    else None
  }

  function Ceiling(p: Project): string {
    if p.autoApproveMax == "" then OFF else p.autoApproveMax
  }

  function CeilingRank(ceiling: string): nat {
    match Rank(ceiling)
    case Some(r) => r
    case None => 0
  }

  predicate OverCeiling(p: Project, significance: string) {
    significance != "" && (Rank(significance).None? || Rank(significance).value > CeilingRank(Ceiling(p)))
  }
}
