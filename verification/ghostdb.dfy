/** The database value types the DotA statistics rely on: the per-player
    DotA record, the ban record, and the transaction calls of the base
    database class (which the concrete MySQL back end overrides). */
module GhostDb {
  import opened Base

  /** The six inventory slots of a hero. */
  type Items = s: seq<string> | |s| == 6 witness ["", "", "", "", "", ""]

  /** `CDBDotAPlayer`: one player's DotA statistics for one game. */
  datatype DotAPlayer = DotAPlayer(
    id: u32,
    gameId: u32,
    colour: u32,
    kills: u32,
    deaths: u32,
    creepKills: u32,
    creepDenies: u32,
    assists: u32,
    gold: u32,
    neutralKills: u32,
    items: Items,
    hero: string,
    newColour: u32,
    towerKills: u32,
    raxKills: u32,
    courierKills: u32,
    rank: u32,
    score: u32,
    outcome: u32,
    name: string,
    level: u32,
    apm: u32)

  /** The number of item slots a record holds. */
  const ITEM_SLOTS: nat := 6

  /** `GetItem(i)`: the item in slot i, or the empty string for a slot
      number past the last one. */
  function GetItem(p: DotAPlayer, i: nat): (r: string)
    ensures i >= ITEM_SLOTS ==> r == ""
  {
    if i < ITEM_SLOTS then p.items[i] else ""
  }

  /** `SetItem(i, s)`: replaces the item in slot i; a slot number past the
      last one leaves the record unchanged. */
  function SetItem(p: DotAPlayer, i: nat, item: string): (q: DotAPlayer)
    ensures i >= ITEM_SLOTS ==> q == p
    ensures i < ITEM_SLOTS ==> GetItem(q, i) == item
    ensures forall j: nat :: j != i ==> GetItem(q, j) == GetItem(p, j)
    ensures q.(items := p.items) == p
  {
    if i < ITEM_SLOTS then p.(items := p.items[i := item]) else p
  }

  /** Storing an item and reading the same slot back yields the item,
      and the other slots read as before. */
  lemma GetSetItem(p: DotAPlayer, i: nat, j: nat, item: string)
    requires i < ITEM_SLOTS
    ensures GetItem(SetItem(p, i, item), j) == if j == i then item else GetItem(p, j)
  {
  }

  /** The default constructor `CDBDotAPlayer()`. */
  function NewDotAPlayer(): (p: DotAPlayer)
    ensures p.id == 0 && p.gameId == 0
    ensures p.colour == 0 && p.newColour == 0
    ensures p.kills == 0 && p.deaths == 0 && p.assists == 0
    ensures p.creepKills == 0 && p.creepDenies == 0 && p.neutralKills == 0 && p.gold == 0
    ensures p.towerKills == 0 && p.raxKills == 0 && p.courierKills == 0
    ensures p.rank == 0 && p.score == 1000 && p.outcome == 0
    ensures p.level == 1 && p.apm == 0
    ensures p.hero == "" && p.name == ""
    ensures forall i: nat :: GetItem(p, i) == ""
  {
    DotAPlayer(0, 0, 0, 0, 0, 0, 0, 0, 0, 0, ["", "", "", "", "", ""], "", 0, 0, 0, 0,
               0, 1000, 0, "", 1, 0)
  }

  /** The 27-argument constructor: every argument is stored verbatim,
      rank, score and outcome included. */
  function NewDotAPlayerRanked(
    nID: u32, nName: string, nGameID: u32, nColour: u32, nKills: u32, nDeaths: u32,
    nCreepKills: u32, nCreepDenies: u32, nAssists: u32, nGold: u32, nNeutralKills: u32,
    nItem1: string, nItem2: string, nItem3: string, nItem4: string, nItem5: string, nItem6: string,
    nHero: string, nNewColour: u32, nTowerKills: u32, nRaxKills: u32, nCourierKills: u32,
    nRank: u32, nScore: u32, nOutcome: u32, nLevel: u32, nApm: u32): (p: DotAPlayer)
    ensures p.rank == nRank && p.score == nScore && p.outcome == nOutcome
    ensures p.colour == nColour && p.newColour == nNewColour && p.name == nName
    ensures GetItem(p, 0) == nItem1 && GetItem(p, 1) == nItem2 && GetItem(p, 2) == nItem3
    ensures GetItem(p, 3) == nItem4 && GetItem(p, 4) == nItem5 && GetItem(p, 5) == nItem6
  {
    DotAPlayer(nID, nGameID, nColour, nKills, nDeaths, nCreepKills, nCreepDenies, nAssists,
               nGold, nNeutralKills, [nItem1, nItem2, nItem3, nItem4, nItem5, nItem6], nHero,
               nNewColour, nTowerKills, nRaxKills, nCourierKills, nRank, nScore, nOutcome,
               nName, nLevel, nApm)
  }

  /** The 25-argument constructor: like the 27-argument one without rank
      and score, except that the outcome is forced to 0 whatever
      `nOutcome` says. The source leaves rank and score uninitialised;
      here they take the default constructor's values. */
  function NewDotAPlayerUnranked(
    nID: u32, nName: string, nGameID: u32, nColour: u32, nKills: u32, nDeaths: u32,
    nCreepKills: u32, nCreepDenies: u32, nAssists: u32, nGold: u32, nNeutralKills: u32,
    nItem1: string, nItem2: string, nItem3: string, nItem4: string, nItem5: string, nItem6: string,
    nHero: string, nNewColour: u32, nTowerKills: u32, nRaxKills: u32, nCourierKills: u32,
    nOutcome: u32, nLevel: u32, nApm: u32): (p: DotAPlayer)
    ensures p.outcome == 0
    ensures p == NewDotAPlayerRanked(nID, nName, nGameID, nColour, nKills, nDeaths, nCreepKills,
                                     nCreepDenies, nAssists, nGold, nNeutralKills, nItem1, nItem2,
                                     nItem3, nItem4, nItem5, nItem6, nHero, nNewColour, nTowerKills,
                                     nRaxKills, nCourierKills, p.rank, p.score, 0, nLevel, nApm)
  {
    DotAPlayer(nID, nGameID, nColour, nKills, nDeaths, nCreepKills, nCreepDenies, nAssists,
               nGold, nNeutralKills, [nItem1, nItem2, nItem3, nItem4, nItem5, nItem6], nHero,
               nNewColour, nTowerKills, nRaxKills, nCourierKills, 0, 1000, 0, nName, nLevel, nApm)
  }

  /** The outcome argument of the 25-argument constructor is ignored. */
  lemma UnrankedIgnoresOutcome(
    nID: u32, nName: string, nGameID: u32, nColour: u32, nKills: u32, nDeaths: u32,
    nCreepKills: u32, nCreepDenies: u32, nAssists: u32, nGold: u32, nNeutralKills: u32,
    nItem1: string, nItem2: string, nItem3: string, nItem4: string, nItem5: string, nItem6: string,
    nHero: string, nNewColour: u32, nTowerKills: u32, nRaxKills: u32, nCourierKills: u32,
    o1: u32, o2: u32, nLevel: u32, nApm: u32)
    ensures NewDotAPlayerUnranked(nID, nName, nGameID, nColour, nKills, nDeaths, nCreepKills,
                                  nCreepDenies, nAssists, nGold, nNeutralKills, nItem1, nItem2,
                                  nItem3, nItem4, nItem5, nItem6, nHero, nNewColour, nTowerKills,
                                  nRaxKills, nCourierKills, o1, nLevel, nApm)
         == NewDotAPlayerUnranked(nID, nName, nGameID, nColour, nKills, nDeaths, nCreepKills,
                                  nCreepDenies, nAssists, nGold, nNeutralKills, nItem1, nItem2,
                                  nItem3, nItem4, nItem5, nItem6, nHero, nNewColour, nTowerKills,
                                  nRaxKills, nCourierKills, o2, nLevel, nApm)
  {
  }

  /** `CDBBan`: a ban record. `expires` is empty unless a constructor that
      takes an expiry date was used. */
  datatype Ban = Ban(
    server: string,
    name: string,
    ip: string,
    date: string,
    gameName: string,
    admin: string,
    reason: string,
    ipBan: bool,
    expires: string)

  /** The 7-argument constructor: never an IP ban. */
  function NewBan(nServer: string, nName: string, nIP: string, nDate: string,
                  nGameName: string, nAdmin: string, nReason: string): (b: Ban)
    ensures !b.ipBan && b.expires == ""
    ensures b.name == nName && b.ip == nIP && b.server == nServer
  {
    Ban(nServer, nName, nIP, nDate, nGameName, nAdmin, nReason, false, "")
  }

  /** The constructor with an expiry date but no IP-ban flag: never an IP ban. */
  function NewBanExpiring(nServer: string, nName: string, nIP: string, nDate: string,
                          nGameName: string, nAdmin: string, nReason: string,
                          nExpires: string): (b: Ban)
    ensures !b.ipBan && b.expires == nExpires
    ensures b == NewBan(nServer, nName, nIP, nDate, nGameName, nAdmin, nReason).(expires := nExpires)
  {
    Ban(nServer, nName, nIP, nDate, nGameName, nAdmin, nReason, false, nExpires)
  }

  /** The constructor with an IP-ban flag: any nonzero flag is an IP ban. */
  function NewBanFlagged(nServer: string, nName: string, nIP: string, nDate: string,
                         nGameName: string, nAdmin: string, nReason: string,
                         nIPBan: u32): (b: Ban)
    ensures b.ipBan <==> nIPBan != 0
    ensures b.expires == ""
  {
    Ban(nServer, nName, nIP, nDate, nGameName, nAdmin, nReason, nIPBan != 0, "")
  }

  /** The constructor with both an IP-ban flag and an expiry date. */
  function NewBanFlaggedExpiring(nServer: string, nName: string, nIP: string, nDate: string,
                                 nGameName: string, nAdmin: string, nReason: string,
                                 nIPBan: u32, nExpires: string): (b: Ban)
    ensures b.ipBan <==> nIPBan != 0
    ensures b.expires == nExpires
  {
    Ban(nServer, nName, nIP, nDate, nGameName, nAdmin, nReason, nIPBan != 0, nExpires)
  }

  /** A zero IP-ban flag builds the same record as the constructors that
      take no flag, and a nonzero one differs from it only in the flag. */
  lemma BanFlagNormalisation(nServer: string, nName: string, nIP: string, nDate: string,
                             nGameName: string, nAdmin: string, nReason: string,
                             nIPBan: u32, nExpires: string)
    ensures nIPBan == 0 ==>
      NewBanFlagged(nServer, nName, nIP, nDate, nGameName, nAdmin, nReason, nIPBan)
        == NewBan(nServer, nName, nIP, nDate, nGameName, nAdmin, nReason)
    ensures nIPBan == 0 ==>
      NewBanFlaggedExpiring(nServer, nName, nIP, nDate, nGameName, nAdmin, nReason, nIPBan, nExpires)
        == NewBanExpiring(nServer, nName, nIP, nDate, nGameName, nAdmin, nReason, nExpires)
    ensures NewBanFlagged(nServer, nName, nIP, nDate, nGameName, nAdmin, nReason, nIPBan)
        == NewBan(nServer, nName, nIP, nDate, nGameName, nAdmin, nReason).(ipBan := nIPBan != 0)
  {
  }

  /** `CGHostDB::Begin` of the base class: a transaction always starts. */
  function Begin(): (ok: bool)
    ensures ok
  {
    true
  }

  /** `CGHostDB::Commit` of the base class: a commit always succeeds. */
  function Commit(): (ok: bool)
    ensures ok
  {
    true
  }
}
