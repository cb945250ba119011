/** The two decoders accept the same replays, up to the largest map each allows. */
module ReplayAgreement {
  import opened Common
  import opened Wire
  import opened ReplayFormat
  import opened ReplayParser
  import opened ReplayStream

  /** If either succeeds, both give the same value and leave the same bytes. */
  ghost predicate Agree<T(!new)>(p: Parsed<T>, q: Parsed<T>) {
    p.Ok? || q.Ok? ==> p == q
  }

  lemma LogsAgree(b: seq<u8>)
    ensures Agree(ParseLog(CPP, b), ParseLog(SCRIPT, b))
  {
  }

  lemma {:induction false} LogListsAgree(b: seq<u8>, n: nat)
    ensures Agree(ParseLogList(CPP, b, n), ParseLogList(SCRIPT, b, n))
    decreases n
  {
    hide ParseLog;
    if n > 0 {
      LogsAgree(b);
      if ParseLog(CPP, b).Ok? {
        LogListsAgree(ParseLog(CPP, b).rest, n - 1);
      }
    }
  }

  lemma LogSectionsAgree(b: seq<u8>)
    ensures Agree(ParseLogs(CPP, b), ParseLogs(SCRIPT, b))
  {
    hide ParseLogList;
    if |b| >= 2 {
      LogListsAgree(b[2..], GetU16(b));
    }
  }

  lemma SectionsAgree(b: seq<u8>)
    ensures Agree(ParseUnits(CPP, b), ParseUnits(SCRIPT, b)) && Agree(ParseBullets(CPP, b), ParseBullets(SCRIPT, b))
  {
    hide GetUnits, GetBullets;
  }

  lemma PayloadsAgree(tick: u32, b: seq<u8>)
    ensures var p, q := ParsePayload(CPP, tick, b), ParsePayload(SCRIPT, tick, b); p.Success? || q.Success? ==> p == q
  {
    hide ParseUnits, ParseBullets, ParseLogs;
    if |b| >= 8 {
      SectionsAgree(b[8..]);
      if ParseUnits(CPP, b[8..]).Ok? {
        var b1 := ParseUnits(CPP, b[8..]).rest;
        SectionsAgree(b1);
        if ParseBullets(CPP, b1).Ok? {
          LogSectionsAgree(ParseBullets(CPP, b1).rest);
        }
      }
    }
  }

  /** The map of a header is one the script decoder takes. */
  predicate Small(h: Header) {
    h.tilemap.width <= SCRIPT.maxDimension && h.tilemap.height <= SCRIPT.maxDimension
  }

  lemma HeadersAgree(b: seq<u8>)
    ensures NextHeader(SCRIPT, b).Yield? <==> NextHeader(CPP, b).Yield? && Small(NextHeader(CPP, b).event.header)
    ensures NextHeader(SCRIPT, b).Yield? ==> NextHeader(CPP, b) == NextHeader(SCRIPT, b)
  {
    hide GetTiles, GetRules;
  }

  lemma RecordsAgree(b: seq<u8>)
    ensures var p, q := Next(CPP, AwaitRecord, b), Next(SCRIPT, AwaitRecord, b); p.Yield? || q.Yield? ==> p == q
  {
    hide ParsePayload;
    if |b| >= 9 && |b| >= 9 + GetU32(b[5..]) {
      PayloadsAgree(GetU32(b[1..]), b[9..9 + GetU32(b[5..])]);
    }
  }

  lemma {:induction false} RunsOfRecordsAgree(b: seq<u8>)
    ensures Drive(CPP, AwaitRecord, b).outcome.Ended? || Drive(SCRIPT, AwaitRecord, b).outcome.Ended? ==>
              Drive(CPP, AwaitRecord, b) == Drive(SCRIPT, AwaitRecord, b)
    decreases |b|
  {
    hide Next;
    RecordsAgree(b);
    var step := Next(CPP, AwaitRecord, b);
    if step.Yield? && !step.event.EndEvent? {
      RunsOfRecordsAgree(step.rest);
    }
  }

  /** A file is complete for the script decoder exactly when it is for the C++ one
      and its map is small enough; both then give the same header, ticks and end. */
  lemma DecodersAgree(b: seq<u8>)
    ensures var c, s := Drive(CPP, AwaitHeader, b), Drive(SCRIPT, AwaitHeader, b);
            && (s.outcome.Ended? <==> c.outcome.Ended? && c.events[0].HeaderEvent? && Small(c.events[0].header))
            && (s.outcome.Ended? ==> c == s)
  {
    hide NextHeader, NextTick, NextEnd;
    HeadersAgree(b);
    if NextHeader(CPP, b).Yield? {
      RunsOfRecordsAgree(NextHeader(CPP, b).rest);
    }
  }
}
