/** When anchored content is final, exactly: the race between a handler and the batcher. */
module Finality {
  import opened Words
  import opened Mids
  import opened Contract
  import opened Anchoring
  import opened Staging
  import Server = ServerTree
  import Utf8

  function RaceStart(owner: Address): State { Init(owner, 0, {"b"}) }

  /** The batcher reads a closed row; a handler that took its clock reading earlier then commits an edit to it. */
  function Race(cfg: Config, owner: Address): seq<Step>
  {
    StageAndRead(cfg, RaceStart(owner), 0)
    + [Send("a", Frame("b", "y", MID), cfg.Open() - 1)] + [BatchSubmit(owner, Mined, 0)] + [BatchDelete]
  }

  /** Through the edit: the table holds the second version, the batcher the first. */
  lemma RaceUntilEdit(cfg: Config, H: Keccak, owner: Address)
    requires !EditsCloseBeforeRead(cfg)
    ensures var steps := StageAndRead(cfg, RaceStart(owner), 0) + [Send("a", Frame("b", "y", MID), cfg.Open() - 1)];
            ValidRun(cfg, H, RaceStart(owner), steps)
            && var s := Run(cfg, H, RaceStart(owner), steps); var edited := StagedRow(cfg, 0, 0).(ciphertext := "y");
            && s.rows == map[MID := edited] && s.log.latest == map[0 := edited] && s.log.history == []
            && s.batcher == Submitting([StagedRow(cfg, 0, 0)], 0) && s.chain == Deployed(owner)
  {
    hide ParseMid, ValidRun, Run, StageAndRead;
    MidFacts();
    StagedAndRead(cfg, H, RaceStart(owner), 0);
    RunAppend(cfg, H, RaceStart(owner), StageAndRead(cfg, RaceStart(owner), 0),
              Send("a", Frame("b", "y", MID), cfg.Open() - 1));
  }

  /** To the end: the second version was accepted, the first is what went on the chain. */
  lemma RaceBreaksFinality(cfg: Config, H: Keccak, owner: Address)
    requires !EditsCloseBeforeRead(cfg) && !IsZeroHash(Server.MakeLeaf(H, Message(StagedRow(cfg, 0, 0))))
    ensures ValidRun(cfg, H, RaceStart(owner), Race(cfg, owner))
    ensures !Final(Run(cfg, H, RaceStart(owner), Race(cfg, owner)))
  {
    hide Submit, ParseMid, ValidRun, Run, Message, IsZeroHash, StageAndRead;
    var s, r := RaceStart(owner), StagedRow(cfg, 0, 0);
    var until := StageAndRead(cfg, RaceStart(owner), 0) + [Send("a", Frame("b", "y", MID), cfg.Open() - 1)];
    RaceUntilEdit(cfg, H, owner);
    var s4 := Run(cfg, H, s, until);
    RunAppend(cfg, H, s, until, BatchSubmit(owner, Mined, 0));
    var s5 := Run(cfg, H, s, until + [BatchSubmit(owner, Mined, 0)]);
    assert Messages([r])[0..1] == [Message(r)];
    SubmitOne(H, s4.chain, Message(r), 0);
    assert s5.log.history == [[Message(r)]] && s5.batcher == Submitted([r]);
    RunAppend(cfg, H, s, until + [BatchSubmit(owner, Mined, 0)], BatchDelete);
    var s6 := Run(cfg, H, s, Race(cfg, owner));
    VersionsDiffer(r);
    assert s6.log.latest[0] == r.(ciphertext := "y") && s6.log.history == [[Message(r)]];
    assert MID !in s6.rows;
  }

  lemma VersionsDiffer(r: Row)
    requires r.ciphertext == "x"
    ensures Message(r.(ciphertext := "y")) != Message(r)
  {
    var x, y := Preimage(r.mid, "x"), Preimage(r.mid, "y");
    assert x[|x| - 1] == 'x' && y[|y| - 1] == 'y';
    if Utf8.Encode(x) == Utf8.Encode(y) { Utf8.EncodeInjective(x, y); }
  }

  /**
    Anchored content is final in every run if and only if a handler commits
    within one tick of reading the clock, or no edit is ever accepted. The one
    tick of slack is the gap between the handler's `>=` and the batcher's `<`.
   */
  lemma FinalityExactly(cfg: Config, H: Keccak, owner: Address)
    requires !IsZeroHash(Server.MakeLeaf(H, Message(StagedRow(cfg, 0, 0))))
    ensures EditsCloseBeforeRead(cfg) <==>
            forall clock, users, steps :: ValidRun(cfg, H, Init(owner, clock, users), steps) ==>
                                            Final(Run(cfg, H, Init(owner, clock, users), steps))
  {
    if EditsCloseBeforeRead(cfg) {
      forall clock, users, steps | ValidRun(cfg, H, Init(owner, clock, users), steps)
        ensures Final(Run(cfg, H, Init(owner, clock, users), steps))
      {
        InitInv(cfg, H, owner, clock, users);
        RunKeepsFinal(cfg, H, Init(owner, clock, users), steps);
      }
    } else {
      RaceBreaksFinality(cfg, H, owner);
    }
  }
}
