/**
 Hunks of a unified diff, as the provider adapters hand them to the comparison service
 (POSIX.1-2017, `diff` utility, "Diff -u or -U Output Format").
 */
module UnifiedDiff {

  /** A count that the hunk header leaves out stands for one line. */
  datatype Count = Blank | Given(n: nat)

  /** One side of a hunk header: `start,count`. */
  datatype Side = Side(start: nat, count: Count) {
    function Lines(): nat {
      if count.Blank? then 1 else count.n
    }

    predicate Contains(ln: nat) {
      start <= ln < start + Lines()
    }

    /** The line counter at which a walk meets the hunk; an empty side names the line before it. */
    function First(): nat {
      if Lines() == 0 && start > 0 then start + 1 else start
    }

    /** The first line the side covers according to the standard, also when its start is 0. */
    function TrueFirst(): nat {
      if Lines() == 0 then start + 1 else start
    }
  }

  datatype Hunk = Hunk(base: Side, head: Side, lines: seq<string>) {
    predicate Contains(b: nat, h: nat) {
      base.Contains(b) || head.Contains(h)
    }
  }

  datatype Kind = Added | Removed | Context

  predicate IsAdded(line: string) {
    |line| > 0 && line[0] == '+'
  }

  predicate IsRemoved(line: string) {
    |line| > 0 && line[0] == '-'
  }

  function KindOf(line: string): Kind {
    if IsAdded(line) then Added else if IsRemoved(line) then Removed else Context
  }

  /** How far a line of the given kind moves the base counter. */
  function BaseStep(k: Kind): nat {
    if k == Added then 0 else 1
  }

  function HeadStep(k: Kind): nat {
    if k == Removed then 0 else 1
  }

  function BaseLen(lines: seq<string>): nat {
    if lines == [] then 0 else BaseStep(KindOf(lines[0])) + BaseLen(lines[1..])
  }

  function HeadLen(lines: seq<string>): nat {
    if lines == [] then 0 else HeadStep(KindOf(lines[0])) + HeadLen(lines[1..])
  }

  /**
   A hunk list in the sense of the standard, for a walk that is about to see base line `b` and
   head line `h`: every hunk has lines, its counts agree with them, both sides lie the same
   distance ahead, and hunks are at least `separation` unchanged lines apart.
   */
  predicate Unified(hs: seq<Hunk>, b: nat, h: nat, separation: nat) {
    hs == [] ||
    var hunk := hs[0];
    && hunk.lines != []
    && hunk.base.Lines() == BaseLen(hunk.lines)
    && hunk.head.Lines() == HeadLen(hunk.lines)
    && hunk.base.TrueFirst() - b == hunk.head.TrueFirst() - h >= separation
    && Unified(hs[1..], hunk.base.TrueFirst() + BaseLen(hunk.lines), hunk.head.TrueFirst() + HeadLen(hunk.lines), 1)
  }

  /** Start 0 says that one of the two files has no lines before the hunk. */
  predicate StartsAtZero(hs: seq<Hunk>) {
    hs != [] && (hs[0].base.start == 0 || hs[0].head.start == 0)
  }
}
