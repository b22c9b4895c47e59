/**
 The HMAC-chained journal: the appender, the verifier, and what a verified log is
 worth. `mac` stands for HMAC under a fixed key followed by base64.
 */
module Journal {
  import opened JsonText
  import opened Wrappers

  /** What the caller of `append` supplies, and the clock; `meta` is the serialised JSON. */
  datatype Payload = Payload(ts: nat, ev: string, msgId: string, from: string, to: string, meta: string)

  datatype Entry = Entry(seq_: nat, payload: Payload, prev: string, hash: string)

  const HASH_LENGTH := 44

  predicate IsBase64(c: char) {
    'A' <= c <= 'Z' || 'a' <= c <= 'z' || '0' <= c <= '9' || c == '+' || c == '/' || c == '='
  }

  /** Base64 of 32 bytes. */
  ghost predicate IsMac(mac: string -> string) {
    forall text :: |mac(text)| == HASH_LENGTH && forall i :: 0 <= i < |mac(text)| ==> IsBase64(mac(text)[i])
  }

  // ---- the hashed text -----------------------------------------------------

  function Digit(d: nat): char
    requires d < 10
  {
    (d + '0' as int) as char
  }

  function Decimal(n: nat): (text: string)
    ensures text != [] && (|text| == 1 <==> n < 10)
    ensures forall i :: 0 <= i < |text| ==> '0' <= text[i] <= '9'
  {
    if n < 10 then [Digit(n)] else Decimal(n / 10) + [Digit(n % 10)]
  }

  function Canonical(n: nat, p: Payload): string {
    Decimal(n) + "|" + Decimal(p.ts) + "|" + p.ev + "|" + p.msgId + "|" + p.from + "|" + p.to
  }

  function Hashed(prev: string, n: nat, p: Payload): string {
    prev + Canonical(n, p) + p.meta
  }

  function MakeEntry(mac: string -> string, prev: string, n: nat, p: Payload): Entry {
    Entry(n, p, prev, mac(Hashed(prev, n, p)))
  }

  /** The hash the next entry will be chained to. */
  function EndHash(log: seq<Entry>): string {
    if log == [] then "" else log[|log| - 1].hash
  }

  /** The log a fresh journal writes for these payloads. */
  function Replay(mac: string -> string, payloads: seq<Payload>): (log: seq<Entry>)
    ensures |log| == |payloads|
  {
    if payloads == [] then []
    else
      var n := |payloads|;
      var earlier := Replay(mac, payloads[..n - 1]);
      earlier + [MakeEntry(mac, EndHash(earlier), n, payloads[n - 1])]
  }

  ghost function Payloads(log: seq<Entry>): seq<Payload> {
    seq(|log|, i requires 0 <= i < |log| => log[i].payload)
  }

  /** A log is intact when replaying its own payloads through a fresh journal gives it back. */
  ghost predicate Intact(mac: string -> string, log: seq<Entry>) {
    log == Replay(mac, Payloads(log))
  }

  // ---- the appender --------------------------------------------------------

  /** One call of `Append`: what is appended, and whether the write succeeds. */
  datatype Attempt = Attempt(payload: Payload, writeOk: bool)

  /** What these calls write after opening, whatever was in the file. */
  ghost function Written(mac: string -> string, attempts: seq<Attempt>): seq<Entry> {
    if attempts == [] then []
    else
      var n := |attempts|;
      var earlier := Written(mac, attempts[..n - 1]);
      earlier + if attempts[n - 1].writeOk then [MakeEntry(mac, EndHash(earlier), n, attempts[n - 1].payload)] else []
  }

  lemma {:induction false} WrittenOneMore(mac: string -> string, attempts: seq<Attempt>, p: Payload, writeOk: bool)
    ensures var earlier, all := Written(mac, attempts), Written(mac, attempts + [Attempt(p, writeOk)]);
            && (writeOk ==> all == earlier + [MakeEntry(mac, EndHash(earlier), |attempts| + 1, p)])
            && (!writeOk ==> all == earlier)
  {
    var more := attempts + [Attempt(p, writeOk)];
    assert more[..|more| - 1] == attempts;
    WrittenLast(mac, more);
  }

  lemma {:induction false} WrittenLast(mac: string -> string, attempts: seq<Attempt>)
    requires attempts != []
    ensures var n := |attempts|;
            var earlier := Written(mac, attempts[..n - 1]);
            && (attempts[n - 1].writeOk ==>
                  Written(mac, attempts) == earlier + [MakeEntry(mac, EndHash(earlier), n, attempts[n - 1].payload)])
            && (!attempts[n - 1].writeOk ==> Written(mac, attempts) == earlier)
  {
  }

  /** The journal object and the file it appends to. */
  class Journal {
    const mac: string -> string
    var seq_: nat
    var lastHash: string
    var file: seq<Entry>
    ghost var base: seq<Entry>
    ghost var attempts: seq<Attempt>

    /** The file is what it was when opened, and what the calls since have written. */
    ghost predicate Valid()
      reads this
    {
      && file == base + Written(mac, attempts)
      && seq_ == |attempts| && lastHash == EndHash(Written(mac, attempts))
    }

    /** Opening never looks at what is in the file. */
    constructor Open(mac: string -> string, file: seq<Entry>)
      ensures Valid() && this.mac == mac && this.file == base == file && attempts == []
      ensures seq_ == 0 && lastHash == ""
    {
      this.mac := mac;
      this.file := file;
      seq_, lastHash := 0, "";
      base, attempts := file, [];
    }

    /** The sequence number is taken before the write, so a failed write leaves a gap. */
    method Append(p: Payload, writeOk: bool) returns (hash: Option<string>)
      requires Valid()
      modifies this
      ensures Valid() && base == old(base) && attempts == old(attempts) + [Attempt(p, writeOk)]
      ensures seq_ == old(seq_) + 1
      ensures writeOk ==> && file == old(file) + [MakeEntry(mac, old(lastHash), seq_, p)]
                          && hash == Some(lastHash) && lastHash == mac(Hashed(old(lastHash), seq_, p))
      ensures !writeOk ==> hash == None && file == old(file) && lastHash == old(lastHash)
    {
      WrittenOneMore(mac, attempts, p, writeOk);
      seq_, attempts := seq_ + 1, attempts + [Attempt(p, writeOk)];
      var entry := MakeEntry(mac, lastHash, seq_, p);
      if !writeOk {
        return None;
      }
      file := file + [entry];
      lastHash := entry.hash;
      hash := Some(entry.hash);
    }
  }

  lemma {:induction false} ReplayOneMore(mac: string -> string, payloads: seq<Payload>, p: Payload)
    ensures var log := Replay(mac, payloads);
            Replay(mac, payloads + [p]) == log + [MakeEntry(mac, EndHash(log), |log| + 1, p)]
  {
    assert (payloads + [p])[..|payloads|] == payloads;
  }

  // ---- the verifier --------------------------------------------------------

  /** A line of the file: blank, not an entry, or an entry. */
  datatype Line = Blank | Garbage | Parsed(entry: Entry)

  datatype ParseError = ParseError

  /** The entries in front of the first line that does not parse. */
  ghost function Readable(lines: seq<Line>): seq<Entry> {
    if lines == [] then []
    else
      var earlier, last := lines[..|lines| - 1], lines[|lines| - 1];
      Readable(earlier) + if Garbage in earlier || !last.Parsed? then [] else [last.entry]
  }

  /** The check the verifier makes on one entry. */
  predicate Follows(mac: string -> string, prev: string, n: nat, entry: Entry) {
    entry.seq_ == n && entry.prev == prev && entry.hash == mac(Hashed(prev, entry.seq_, entry.payload))
  }

  method VerifyFile(mac: string -> string, lines: seq<Line>) returns (ok: Result<bool, ParseError>)
    ensures ok == if !Intact(mac, Readable(lines)) then Ok(false)
                  else if Garbage in lines then Err(ParseError) else Ok(true)
  {
    var prevHash, expected := "", 1;
    ghost var log: seq<Entry> := [];
    for i := 0 to |lines|
      invariant Garbage !in lines[..i] && log == Readable(lines[..i])
      invariant Intact(mac, log) && prevHash == EndHash(log) && expected == |log| + 1
    {
      assert lines[..i + 1][..i] == lines[..i];
      match lines[i] {
        case Blank =>
        case Garbage =>
          ReadableIsSettled(lines, i + 1);
          return Err(ParseError);
        case Parsed(entry) =>
          var good := entry.seq_ == expected && entry.prev == prevHash
                      && entry.hash == mac(Hashed(prevHash, entry.seq_, entry.payload));
          assert good <==> Follows(mac, EndHash(log), |log| + 1, entry);
          IntactStep(mac, log, entry);
          log := log + [entry];
          if !good {
            ReadableGrows(lines, i + 1);
            BrokenStaysBroken(mac, log, Readable(lines));
            return Ok(false);
          }
          prevHash, expected := entry.hash, expected + 1;
      }
    }
    assert lines[..|lines|] == lines;
    ok := Ok(true);
  }

  /** A log stays intact by one more entry exactly when that entry passes the check. */
  lemma IntactStep(mac: string -> string, log: seq<Entry>, entry: Entry)
    requires Intact(mac, log)
    ensures Intact(mac, log + [entry]) <==> Follows(mac, EndHash(log), |log| + 1, entry)
  {
    assert Payloads(log + [entry]) == Payloads(log) + [entry.payload];
    ReplayOneMore(mac, Payloads(log), entry.payload);
  }

  lemma IntactButLast(mac: string -> string, log: seq<Entry>)
    requires Intact(mac, log) && log != []
    ensures Intact(mac, log[..|log| - 1])
  {
    var n := |log| - 1;
    var payloads := Payloads(log);
    assert Replay(mac, payloads)[..n] == Replay(mac, payloads[..n]);
    assert Payloads(log[..n]) == payloads[..n];
  }

  lemma {:induction false} IntactPrefix(mac: string -> string, log: seq<Entry>, n: nat)
    requires Intact(mac, log) && n <= |log|
    ensures Intact(mac, log[..n])
    decreases |log| - n
  {
    if n == |log| {
      assert log[..n] == log;
    } else {
      IntactPrefix(mac, log, n + 1);
      IntactButLast(mac, log[..n + 1]);
      assert log[..n + 1][..n] == log[..n];
    }
  }

  lemma BrokenStaysBroken(mac: string -> string, broken: seq<Entry>, longer: seq<Entry>)
    requires !Intact(mac, broken) && broken <= longer
    ensures !Intact(mac, longer)
  {
    assert longer[..|broken|] == broken;
    if Intact(mac, longer) {
      IntactPrefix(mac, longer, |broken|);
    }
  }

  lemma {:induction false} ReadableGrows(lines: seq<Line>, n: nat)
    requires n <= |lines|
    ensures Readable(lines[..n]) <= Readable(lines)
    decreases |lines| - n
  {
    if n < |lines| {
      ReadableGrows(lines, n + 1);
      assert lines[..n + 1][..n] == lines[..n];
    } else {
      assert lines[..n] == lines;
    }
  }

  lemma {:induction false} ReadableIsSettled(lines: seq<Line>, n: nat)
    requires 0 < n <= |lines| && lines[n - 1] == Garbage && Garbage !in lines[..n - 1]
    ensures Readable(lines) == Readable(lines[..n - 1])
  {
    assert lines[..n][..n - 1] == lines[..n - 1];
    SettledFrom(lines, n);
  }

  lemma {:induction false} SettledFrom(lines: seq<Line>, n: nat)
    requires n <= |lines| && Garbage in lines[..n]
    ensures Readable(lines) == Readable(lines[..n])
    decreases |lines| - n
  {
    if n == |lines| {
      assert lines[..n] == lines;
    } else {
      assert lines[..n + 1][..n] == lines[..n];
      assert Garbage in lines[..n + 1] by {
        var i :| 0 <= i < n && lines[..n][i] == Garbage;
        assert lines[..n + 1][i] == Garbage;
      }
      SettledFrom(lines, n + 1);
    }
  }

  // ---- what a fresh journal writes, verifies -------------------------------

  lemma {:induction false} PayloadsOfReplay(mac: string -> string, payloads: seq<Payload>)
    ensures Payloads(Replay(mac, payloads)) == payloads
  {
    if payloads != [] {
      var n := |payloads| - 1;
      PayloadsOfReplay(mac, payloads[..n]);
      assert payloads == payloads[..n] + [payloads[n]];
      assert Payloads(Replay(mac, payloads)) == Payloads(Replay(mac, payloads[..n])) + [payloads[n]];
    }
  }

  /** Whatever is appended to an empty file, the file and every prefix of it are intact. */
  lemma {:induction false} FreshRunsVerify(mac: string -> string, payloads: seq<Payload>, n: nat)
    requires n <= |payloads|
    ensures Intact(mac, Replay(mac, payloads)[..n])
  {
    PayloadsOfReplay(mac, payloads);
    IntactPrefix(mac, Replay(mac, payloads), n);
  }

  /** Blank lines are no part of the log. */
  lemma {:induction false} BlanksDoNotMatter(lines: seq<Line>)
    requires Garbage !in lines
    ensures Readable(lines) == Readable(NonBlank(lines)) && |Readable(lines)| == |NonBlank(lines)|
  {
    if lines != [] {
      var n := |lines| - 1;
      BlanksDoNotMatter(lines[..n]);
      var kept := NonBlank(lines[..n]);
      assert Garbage !in lines[..n] && Garbage !in kept;
      if lines[n].Parsed? {
        assert NonBlank(lines) == kept + [lines[n]];
        assert (kept + [lines[n]])[..|kept|] == kept;
      } else {
        assert lines[n].Blank?;
        assert NonBlank(lines) == kept;
      }
    }
  }

  ghost function NonBlank(lines: seq<Line>): (kept: seq<Line>)
    ensures forall l <- kept :: l in lines && l != Blank
  {
    if lines == [] then []
    else NonBlank(lines[..|lines| - 1]) + if lines[|lines| - 1].Blank? then [] else [lines[|lines| - 1]]
  }

  // ---- what breaks the chain -----------------------------------------------

  ghost predicate NoneAfterFailure(attempts: seq<Attempt>) {
    forall i, j :: 0 <= i < j < |attempts| && attempts[j].writeOk ==> attempts[i].writeOk
  }

  lemma {:induction false} WrittenLength(mac: string -> string, attempts: seq<Attempt>)
    ensures |Written(mac, attempts)| <= |attempts|
    ensures |Written(mac, attempts)| == |attempts| <==> forall i :: 0 <= i < |attempts| ==> attempts[i].writeOk
  {
    if attempts != [] {
      WrittenLength(mac, attempts[..|attempts| - 1]);
    }
  }

  lemma FailedStep(attempts: seq<Attempt>)
    requires attempts != [] && !attempts[|attempts| - 1].writeOk
    ensures NoneAfterFailure(attempts) <==> NoneAfterFailure(attempts[..|attempts| - 1])
  {
  }

  lemma WrittenStep(attempts: seq<Attempt>)
    requires attempts != [] && attempts[|attempts| - 1].writeOk
    ensures NoneAfterFailure(attempts) <==> forall i :: 0 <= i < |attempts| ==> attempts[i].writeOk
  {
  }

  lemma AllWrittenStep(mac: string -> string, attempts: seq<Attempt>)
    requires attempts != [] && attempts[|attempts| - 1].writeOk
    requires var earlier := Written(mac, attempts[..|attempts| - 1]);
             Intact(mac, earlier) && |earlier| < |attempts|
    ensures Intact(mac, Written(mac, attempts)) <==> |Written(mac, attempts)| == |attempts|
  {
    var n := |attempts|;
    var earlier := Written(mac, attempts[..n - 1]);
    IntactStep(mac, earlier, MakeEntry(mac, EndHash(earlier), n, attempts[n - 1].payload));
  }

  /** A failed write takes a number, so the file verifies exactly when no write succeeds after one has failed. */
  lemma {:induction false} FailedWritesLeaveGaps(mac: string -> string, attempts: seq<Attempt>)
    ensures Intact(mac, Written(mac, attempts)) <==> NoneAfterFailure(attempts)
  {
    if attempts != [] {
      var n := |attempts| - 1;
      var earlier := Written(mac, attempts[..n]);
      FailedWritesLeaveGaps(mac, attempts[..n]);
      if !attempts[n].writeOk {
        assert Written(mac, attempts) == earlier;
        FailedStep(attempts);
      } else {
        WrittenStep(attempts);
        WrittenLength(mac, attempts[..n]);
        WrittenLength(mac, attempts);
        if Intact(mac, earlier) {
          AllWrittenStep(mac, attempts);
        } else {
          BrokenStaysBroken(mac, earlier, Written(mac, attempts));
        }
      }
    }
  }

  ghost predicate AllSucceed(attempts: seq<Attempt>) {
    forall i :: 0 <= i < |attempts| ==> attempts[i].writeOk
  }

  /** When every write succeeds, the file is what a fresh journal writes for these payloads. */
  lemma {:induction false} WrittenIsReplay(mac: string -> string, attempts: seq<Attempt>)
    requires AllSucceed(attempts)
    ensures Written(mac, attempts) == Replay(mac, seq(|attempts|, i requires 0 <= i < |attempts| => attempts[i].payload))
  {
    if attempts != [] {
      var n := |attempts| - 1;
      var payloads := seq(|attempts|, i requires 0 <= i < |attempts| => attempts[i].payload);
      WrittenIsReplay(mac, attempts[..n]);
      WrittenLength(mac, attempts[..n]);
      assert payloads[..n] == seq(n, i requires 0 <= i < n => attempts[..n][i].payload);
    }
  }

  lemma {:induction false} FirstWritten(mac: string -> string, attempts: seq<Attempt>)
    requires Written(mac, attempts) != []
    ensures Written(mac, attempts)[0].prev == ""
  {
    if Written(mac, attempts[..|attempts| - 1]) != [] {
      FirstWritten(mac, attempts[..|attempts| - 1]);
    }
  }

  lemma {:induction false} GoingOnBreaks(mac: string -> string, base: seq<Entry>, attempts: seq<Attempt>)
    requires IsMac(mac) && base != [] && Written(mac, attempts) != []
    ensures !Intact(mac, base + Written(mac, attempts))
  {
    var more := Written(mac, attempts);
    FirstWritten(mac, attempts);
    var head := base + [more[0]];
    assert head <= base + more;
    if Intact(mac, base) {
      LastEntry(mac, base);
      IntactStep(mac, base, more[0]);
    } else {
      BrokenStaysBroken(mac, base, head);
    }
    BrokenStaysBroken(mac, head, base + more);
  }

  /**
   What a journal leaves verifies in two cases only: it was opened over an empty file
   and no write succeeded after one had failed, or it was opened over a file that
   verified and no write succeeded at all.
   */
  lemma {:induction false} ReopeningRestartsTheChain(mac: string -> string, base: seq<Entry>, attempts: seq<Attempt>)
    requires IsMac(mac)
    ensures Intact(mac, base + Written(mac, attempts)) <==>
            if base == [] then NoneAfterFailure(attempts) else Intact(mac, base) && Written(mac, attempts) == []
  {
    var more := Written(mac, attempts);
    FailedWritesLeaveGaps(mac, attempts);
    if base == [] {
      assert base + more == more;
    } else if more == [] {
      assert base + more == base;
    } else {
      GoingOnBreaks(mac, base, attempts);
    }
  }

  // ---- what the end hash commits to ----------------------------------------

  ghost predicate Free(text: string, c: char) {
    c !in text
  }

  /** No separator inside a field but the last, and a `meta` that is a serialised object. */
  ghost predicate WellFormed(p: Payload) {
    Free(p.ev, '|') && Free(p.msgId, '|') && Free(p.from, '|') && IsObject(p.meta)
  }

  ghost predicate AllWellFormed(log: seq<Entry>) {
    forall i :: 0 <= i < |log| ==> WellFormed(log[i].payload)
  }

  /** What is hashed for entry `i`. */
  ghost function Input(log: seq<Entry>, i: nat): string
    requires i < |log|
  {
    Hashed(log[i].prev, log[i].seq_, log[i].payload)
  }

  /** No input of one log collides with a different input of the other. */
  ghost predicate CollisionFree(mac: string -> string, a: seq<Entry>, b: seq<Entry>) {
    forall i, j :: 0 <= i < |a| && 0 <= j < |b| && mac(Input(a, i)) == mac(Input(b, j)) ==> Input(a, i) == Input(b, j)
  }

  /** A text splits in one way at the first occurrence of a character. */
  lemma SplitOnce(c: char, a: string, b: string, a': string, b': string)
    requires a + [c] + b == a' + [c] + b' && Free(a, c) && Free(a', c)
    ensures a == a' && b == b'
  {
    var t := a + [c] + b;
    assert t[|a|] == c && t[|a'|] == c;
    assert forall i :: 0 <= i < |a| ==> t[i] == a[i] != c;
    assert forall i :: 0 <= i < |a'| ==> t[i] == a'[i] != c;
    assert a == t[..|a|] && a' == t[..|a'|];
    assert b == t[|a| + 1..] && b' == t[|a'| + 1..];
  }

  lemma {:induction false} DecimalIsInjective(m: nat, n: nat)
    requires Decimal(m) == Decimal(n)
    ensures m == n
  {
    var a, b := Decimal(m), Decimal(n);
    assert a[|a| - 1] == b[|b| - 1];
    if m >= 10 {
      assert Decimal(m / 10) == a[..|a| - 1];
      assert Decimal(n / 10) == b[..|b| - 1];
      DecimalIsInjective(m / 10, n / 10);
    }
  }

  /** The previous hash and the number an entry can carry: none and 1, or a base64 hash and more than 1. */
  ghost predicate Chainable(prev: string, n: nat) {
    || (prev == "" && n == 1)
    || (|prev| == HASH_LENGTH && n > 1 && forall i :: 0 <= i < |prev| ==> IsBase64(prev[i]))
  }

  lemma DecimalOfOne()
    ensures Decimal(1) == "1"
  {
  }

  lemma {:induction false} HeadDecodes(prev: string, n: nat, prev': string, n': nat)
    requires Chainable(prev, n) && Chainable(prev', n') && prev + Decimal(n) == prev' + Decimal(n')
    ensures prev == prev' && n == n'
  {
    DecimalOfOne();
    var t := prev + Decimal(n);
    assert prev == t[..|prev|] && prev' == t[..|prev'|];
    assert Decimal(n) == t[|prev|..] && Decimal(n') == t[|prev'|..];
    DecimalIsInjective(n, n');
  }

  lemma {:induction false} HeadIsFree(prev: string, n: nat)
    requires Chainable(prev, n)
    ensures Free(prev + Decimal(n), '|')
  {
    var t := prev + Decimal(n);
    forall i | 0 <= i < |t|
      ensures t[i] != '|'
    {
      if i < |prev| {
        assert IsBase64(t[i]);
      } else {
        assert t[i] == Decimal(n)[i - |prev|];
      }
    }
  }

  lemma {:induction false} DecimalIsFree(n: nat)
    ensures Free(Decimal(n), '|')
  {
  }

  /** The hashed text determines the previous hash, the number and every field. */
  lemma HashedDecodes(prev: string, n: nat, p: Payload, prev': string, n': nat, p': Payload)
    requires Chainable(prev, n) && Chainable(prev', n') && WellFormed(p) && WellFormed(p')
    requires Hashed(prev, n, p) == Hashed(prev', n', p')
    ensures prev == prev' && n == n' && p == p'
  {
    HeadIsFree(prev, n);
    HeadIsFree(prev', n');
    DecimalIsFree(p.ts);
    DecimalIsFree(p'.ts);
    HashedShape(prev, n, p);
    HashedShape(prev', n', p');
    SplitOnce('|', prev + Decimal(n), Tail1(p), prev' + Decimal(n'), Tail1(p'));
    SplitOnce('|', Decimal(p.ts), Tail2(p), Decimal(p'.ts), Tail2(p'));
    SplitOnce('|', p.ev, Tail3(p), p'.ev, Tail3(p'));
    SplitOnce('|', p.msgId, Tail4(p), p'.msgId, Tail4(p'));
    SplitOnce('|', p.from, p.to + p.meta, p'.from, p'.to + p'.meta);
    OneObjectAtTheEnd(p.to, p.meta, p'.to, p'.meta);
    HeadDecodes(prev, n, prev', n');
    DecimalIsInjective(p.ts, p'.ts);
  }

  function Bar(a: string, b: string): string {
    a + ['|'] + b
  }

  function Tail4(p: Payload): string { Bar(p.from, p.to + p.meta) }
  function Tail3(p: Payload): string { Bar(p.msgId, Tail4(p)) }
  function Tail2(p: Payload): string { Bar(p.ev, Tail3(p)) }
  function Tail1(p: Payload): string { Bar(Decimal(p.ts), Tail2(p)) }

  lemma BarAssociates(a: string, b: string, c: string)
    ensures Bar(Bar(a, b), c) == Bar(a, Bar(b, c))
  {
  }

  lemma {:induction false} CanonicalInBars(n: nat, p: Payload)
    ensures Canonical(n, p)
            == Bar(Decimal(n), Bar(Decimal(p.ts), Bar(p.ev, Bar(p.msgId, Bar(p.from, p.to)))))
  {
    var number, time := Decimal(n), Decimal(p.ts);
    assert Canonical(n, p) == Bar(Bar(Bar(Bar(Bar(number, time), p.ev), p.msgId), p.from), p.to);
    BarAssociates(Bar(Bar(Bar(number, time), p.ev), p.msgId), p.from, p.to);
    BarAssociates(Bar(Bar(number, time), p.ev), p.msgId, Bar(p.from, p.to));
    BarAssociates(Bar(number, time), p.ev, Bar(p.msgId, Bar(p.from, p.to)));
    BarAssociates(number, time, Bar(p.ev, Bar(p.msgId, Bar(p.from, p.to))));
  }

  lemma BarEnd(a: string, b: string, end: string)
    ensures Bar(a, b) + end == Bar(a, b + end)
  {
  }

  lemma BarFront(front: string, a: string, b: string)
    ensures front + Bar(a, b) == Bar(front + a, b)
  {
  }

  lemma {:induction false} HashedShape(prev: string, n: nat, p: Payload)
    ensures Hashed(prev, n, p) == Bar(prev + Decimal(n), Tail1(p))
  {
    var fields4 := Bar(p.from, p.to);
    var fields3 := Bar(p.msgId, fields4);
    var fields2 := Bar(p.ev, fields3);
    CanonicalInBars(n, p);
    BarFront(prev, Decimal(n), Bar(Decimal(p.ts), fields2));
    BarEnd(prev + Decimal(n), Bar(Decimal(p.ts), fields2), p.meta);
    BarEnd(Decimal(p.ts), fields2, p.meta);
    BarEnd(p.ev, fields3, p.meta);
    BarEnd(p.msgId, fields4, p.meta);
    BarEnd(p.from, p.to, p.meta);
  }

  /** The last entry of an intact log, taken apart. */
  lemma LastEntry(mac: string -> string, log: seq<Entry>)
    requires IsMac(mac) && Intact(mac, log) && log != []
    ensures var n := |log|;
            var earlier, last := log[..n - 1], log[n - 1];
            && Intact(mac, earlier) && Follows(mac, EndHash(earlier), n, last)
            && Chainable(EndHash(earlier), n) && |last.hash| == HASH_LENGTH
  {
    var n := |log|;
    IntactPrefix(mac, log, n - 1);
    assert log == log[..n - 1] + [log[n - 1]];
    IntactStep(mac, log[..n - 1], log[n - 1]);
    if n > 1 {
      IntactPrefix(mac, log, n - 2);
      assert log[..n - 1] == log[..n - 2] + [log[n - 2]];
      IntactStep(mac, log[..n - 2], log[n - 2]);
    }
  }

  /**
   Two logs that verify under one key and end in the same hash are the same log,
   entry by entry and in length, unless two of their hashed inputs collide.
   */
  lemma {:induction false} SameEndSameLog(mac: string -> string, a: seq<Entry>, b: seq<Entry>)
    requires IsMac(mac) && Intact(mac, a) && Intact(mac, b)
    requires AllWellFormed(a) && AllWellFormed(b) && CollisionFree(mac, a, b)
    requires EndHash(a) == EndHash(b)
    ensures a == b
    decreases |a|
  {
    if a != [] { LastEntry(mac, a); }
    if b != [] { LastEntry(mac, b); }
    if a != [] && b != [] {
      var m, n := |a| - 1, |b| - 1;
      assert Input(a, m) == Input(b, n);
      HashedDecodes(a[m].prev, a[m].seq_, a[m].payload, b[n].prev, b[n].seq_, b[n].payload);
      forall i, j | 0 <= i < m && 0 <= j < n && mac(Input(a[..m], i)) == mac(Input(b[..n], j))
        ensures Input(a[..m], i) == Input(b[..n], j)
      {
        assert Input(a[..m], i) == Input(a, i) && Input(b[..n], j) == Input(b, j);
      }
      SameEndSameLog(mac, a[..m], b[..n]);
      assert a == a[..m] + [a[m]] && b == b[..n] + [b[n]];
    }
  }

  // ---- when a separator stands inside a field ------------------------------

  /** The fields a client supplies hold no separator. */
  ghost predicate ClientFieldsFree(p: Payload) {
    Free(p.msgId, '|') && Free(p.from, '|') && Free(p.to, '|')
  }

  lemma Cancel(front: string, a: string, b: string)
    requires front + a == front + b
    ensures a == b
  {
    assert a == (front + a)[|front|..] && b == (front + b)[|front|..];
  }

  lemma CancelEnd(a: string, b: string, end: string)
    requires a + end == b + end
    ensures a == b
  {
    assert |a| == |b|;
    assert a == (a + end)[..|a|] && b == (b + end)[..|b|];
  }

  ghost function Separators(text: string): nat {
    multiset(text)['|']
  }

  lemma SeparatorsAddUp(a: string, b: string)
    ensures Separators(a + ['|'] + b) == Separators(a) + 1 + Separators(b)
    ensures Separators(a + b) == Separators(a) + Separators(b)
  {
  }

  lemma FreeMeansNone(text: string)
    ensures Free(text, '|') <==> Separators(text) == 0
  {
  }

  /** If the rest behind the event reads the same, no separator can have moved between free fields. */
  lemma ClientFieldsDecode(p: Payload, q: Payload)
    requires Tail3(p) == Tail3(q) && q.meta == p.meta && ClientFieldsFree(p)
    ensures q.msgId == p.msgId && q.from == p.from && q.to == p.to
  {
    TailSeparators(p);
    TailSeparators(q);
    FreeMeansNone(p.msgId);
    FreeMeansNone(p.from);
    FreeMeansNone(p.to);
    FreeMeansNone(q.msgId);
    FreeMeansNone(q.from);
    SplitOnce('|', p.msgId, Tail4(p), q.msgId, Tail4(q));
    SplitOnce('|', p.from, p.to + p.meta, q.from, q.to + q.meta);
    CancelEnd(p.to, q.to, p.meta);
  }

  lemma TailSeparators(p: Payload)
    ensures Separators(Tail3(p)) == Separators(p.msgId) + Separators(p.from) + Separators(p.to) + Separators(p.meta) + 2
  {
    SeparatorsAddUp(p.msgId, Tail4(p));
    SeparatorsAddUp(p.from, p.to + p.meta);
    SeparatorsAddUp(p.to, p.meta);
  }

  /** The first separator. */
  function At(text: string): (i: nat)
    requires '|' in text
    ensures i < |text| && text[i] == '|'
  {
    if text[0] == '|' then 0 else 1 + At(text[1..])
  }

  function Before(text: string): string
    requires '|' in text
  {
    text[..At(text)]
  }

  function After(text: string): string
    requires '|' in text
  {
    text[At(text) + 1..]
  }

  /** Another payload with the same hashed text: the separator found ends its field earlier, or the one before later. */
  function Resplit(p: Payload): Payload {
    if '|' in p.msgId then p.(msgId := Before(p.msgId), from := Bar(After(p.msgId), p.from))
    else if '|' in p.from then p.(from := Before(p.from), to := Bar(After(p.from), p.to))
    else if '|' in p.to then p.(from := Bar(p.from, Before(p.to)), to := After(p.to))
    else if '|' in p.ev then p.(ev := Before(p.ev), msgId := Bar(After(p.ev), p.msgId))
    else p
  }

  lemma SplitAtSeparator(text: string)
    requires '|' in text
    ensures text == Bar(Before(text), After(text)) && Before(text) != text && After(text) != text
  {
    assert |Before(text)| < |text| && |After(text)| < |text|;
  }

  lemma ResplitFields(p: Payload)
    ensures var q := Resplit(p);
            Bar(q.ev, Bar(q.msgId, Bar(q.from, q.to))) == Bar(p.ev, Bar(p.msgId, Bar(p.from, p.to)))
  {
    if '|' in p.msgId {
      SplitAtSeparator(p.msgId);
      BarAssociates(Before(p.msgId), After(p.msgId), Bar(p.from, p.to));
      BarAssociates(After(p.msgId), p.from, p.to);
    } else if '|' in p.from {
      SplitAtSeparator(p.from);
      BarAssociates(Before(p.from), After(p.from), p.to);
    } else if '|' in p.to {
      SplitAtSeparator(p.to);
      BarAssociates(p.from, Before(p.to), After(p.to));
    } else if '|' in p.ev {
      SplitAtSeparator(p.ev);
      BarAssociates(Before(p.ev), After(p.ev), Bar(p.msgId, Bar(p.from, p.to)));
      BarAssociates(After(p.ev), p.msgId, Bar(p.from, p.to));
    }
  }

  lemma ResplitDiffers(p: Payload)
    ensures !ClientFieldsFree(p) ==> Resplit(p).ev == p.ev
    ensures Resplit(p) != p <==> '|' in p.ev || !ClientFieldsFree(p)
  {
    if '|' in p.msgId {
      SplitAtSeparator(p.msgId);
    } else if '|' in p.from {
      SplitAtSeparator(p.from);
    } else if '|' in p.to {
      SplitAtSeparator(p.to);
    } else if '|' in p.ev {
      SplitAtSeparator(p.ev);
    }
  }

  lemma ResplitReadsTheSame(p: Payload, n: nat)
    ensures Canonical(n, Resplit(p)) == Canonical(n, p)
    ensures Resplit(p).ts == p.ts && Resplit(p).meta == p.meta
    ensures !ClientFieldsFree(p) ==> Resplit(p).ev == p.ev
    ensures Resplit(p) != p <==> '|' in p.ev || !ClientFieldsFree(p)
  {
    ResplitFields(p);
    ResplitDiffers(p);
    CanonicalInBars(n, p);
    CanonicalInBars(n, Resplit(p));
  }

  /** Where the metadata begins is never in doubt. */
  lemma MetaDecodes(p: Payload, q: Payload)
    requires Tail2(p) == Tail2(q) && IsObject(p.meta) && IsObject(q.meta)
    ensures q.meta == p.meta
  {
    OneObjectAtTheEnd(BeforeMeta(p), p.meta, BeforeMeta(q), q.meta);
  }

  function BeforeMeta(p: Payload): (front: string)
    ensures Tail2(p) == front + p.meta
  {
    p.ev + ['|'] + p.msgId + ['|'] + p.from + ['|'] + p.to
  }

  /** Among payloads with the same event, the hashed text determines one exactly when no client field holds a separator. */
  lemma ClientSeparatorsDecide(prev: string, n: nat, p: Payload)
    requires IsObject(p.meta)
    ensures (forall q: Payload :: q.ev == p.ev && IsObject(q.meta) && Hashed(prev, n, q) == Hashed(prev, n, p) ==> q == p)
            <==> ClientFieldsFree(p)
  {
    if ClientFieldsFree(p) {
      forall q: Payload | q.ev == p.ev && IsObject(q.meta) && Hashed(prev, n, q) == Hashed(prev, n, p)
        ensures q == p
      {
        TimeDecodes(prev, n, p, q);
        MetaDecodes(p, q);
        Cancel(p.ev + ['|'], Tail3(p), Tail3(q));
        ClientFieldsDecode(p, q);
      }
    } else {
      ResplitReadsTheSame(p, n);
      assert Hashed(prev, n, Resplit(p)) == Hashed(prev, n, p);
    }
  }

  lemma TimeDecodes(prev: string, n: nat, p: Payload, q: Payload)
    requires Hashed(prev, n, q) == Hashed(prev, n, p)
    ensures q.ts == p.ts && Tail2(q) == Tail2(p)
  {
    HashedShape(prev, n, p);
    HashedShape(prev, n, q);
    Cancel(prev + Decimal(n) + ['|'], Tail1(p), Tail1(q));
    DecimalIsFree(p.ts);
    DecimalIsFree(q.ts);
    SplitOnce('|', Decimal(p.ts), Tail2(p), Decimal(q.ts), Tail2(q));
    DecimalIsInjective(p.ts, q.ts);
  }

  /** Among all payloads, exactly when the event holds none either. */
  lemma SeparatorsDecide(prev: string, n: nat, p: Payload)
    requires IsObject(p.meta)
    ensures (forall q: Payload :: IsObject(q.meta) && Hashed(prev, n, q) == Hashed(prev, n, p) ==> q == p)
            <==> Free(p.ev, '|') && ClientFieldsFree(p)
  {
    if Free(p.ev, '|') && ClientFieldsFree(p) {
      forall q: Payload | IsObject(q.meta) && Hashed(prev, n, q) == Hashed(prev, n, p)
        ensures q == p
      {
        TimeDecodes(prev, n, p, q);
        MetaDecodes(p, q);
        EventDecodes(p, q);
        ClientFieldsDecode(p, q);
      }
    } else {
      ResplitReadsTheSame(p, n);
      assert Hashed(prev, n, Resplit(p)) == Hashed(prev, n, p);
    }
  }

  lemma EventDecodes(p: Payload, q: Payload)
    requires Tail2(p) == Tail2(q) && q.meta == p.meta && Free(p.ev, '|') && ClientFieldsFree(p)
    ensures q.ev == p.ev && Tail3(q) == Tail3(p)
  {
    SeparatorsAddUp(p.ev, Tail3(p));
    SeparatorsAddUp(q.ev, Tail3(q));
    TailSeparators(p);
    TailSeparators(q);
    FreeMeansNone(p.ev);
    FreeMeansNone(q.ev);
    FreeMeansNone(p.msgId);
    FreeMeansNone(p.from);
    FreeMeansNone(p.to);
    SplitOnce('|', p.ev, Tail3(p), q.ev, Tail3(q));
  }

  /** Payload by payload, the same text is hashed whatever it is chained to. */
  ghost predicate SameTexts(payloads: seq<Payload>, others: seq<Payload>) {
    && |payloads| == |others|
    && forall j :: 0 <= j < |payloads| ==>
         Canonical(j + 1, payloads[j]) == Canonical(j + 1, others[j]) && payloads[j].meta == others[j].meta
  }

  lemma {:induction false} SameTextsSameHashes(mac: string -> string, payloads: seq<Payload>, others: seq<Payload>)
    requires SameTexts(payloads, others)
    ensures forall j :: 0 <= j < |payloads| ==>
              && Replay(mac, payloads)[j].prev == Replay(mac, others)[j].prev
              && Replay(mac, payloads)[j].hash == Replay(mac, others)[j].hash
    ensures EndHash(Replay(mac, payloads)) == EndHash(Replay(mac, others))
  {
    if payloads != [] {
      var n := |payloads| - 1;
      SameTextsSameHashes(mac, payloads[..n], others[..n]);
    }
  }

  /** What is hashed for entry `j` of a replayed log. */
  lemma {:induction false} ReplayedEntry(mac: string -> string, payloads: seq<Payload>, j: nat)
    requires j < |payloads|
    ensures var entry := Replay(mac, payloads)[j];
            entry.seq_ == j + 1 && entry.payload == payloads[j] && entry.hash == mac(Hashed(entry.prev, j + 1, payloads[j]))
  {
    if j < |payloads| - 1 {
      ReplayedEntry(mac, payloads[..|payloads| - 1], j);
    }
  }

  lemma {:induction false} SameTextSameInput(mac: string -> string, payloads: seq<Payload>, others: seq<Payload>, j: nat)
    requires SameTexts(payloads, others) && j < |payloads|
    ensures var a, b := Replay(mac, payloads), Replay(mac, others);
            a[j].hash == b[j].hash && Input(a, j) == Input(b, j)
  {
    SameTextsSameHashes(mac, payloads, others);
    ReplayedEntry(mac, payloads, j);
    ReplayedEntry(mac, others, j);
  }

  /**
   Wherever a client field of a log holds a separator, there is another log, different
   only in that entry's client fields, that verifies and has the same hashes throughout.
   */
  lemma {:induction false} SeparatorsInFieldsAreAmbiguous(mac: string -> string, payloads: seq<Payload>, i: nat)
    requires i < |payloads| && !ClientFieldsFree(payloads[i])
    ensures var other := Resplit(payloads[i]);
            && other != payloads[i]
            && other.ts == payloads[i].ts && other.ev == payloads[i].ev && other.meta == payloads[i].meta
    ensures var a, b := Replay(mac, payloads), Replay(mac, payloads[i := Resplit(payloads[i])]);
            && Intact(mac, a) && Intact(mac, b) && a != b && EndHash(a) == EndHash(b)
            && forall j :: 0 <= j < |a| ==> a[j].hash == b[j].hash && Input(a, j) == Input(b, j)
  {
    var others := payloads[i := Resplit(payloads[i])];
    ResplitReadsTheSame(payloads[i], i + 1);
    assert SameTexts(payloads, others);
    SameTextsSameHashes(mac, payloads, others);
    ReplayIsIntact(mac, payloads);
    ReplayIsIntact(mac, others);
    ReplayedEntry(mac, payloads, i);
    ReplayedEntry(mac, others, i);
    forall j | 0 <= j < |payloads|
      ensures Replay(mac, payloads)[j].hash == Replay(mac, others)[j].hash
      ensures Input(Replay(mac, payloads), j) == Input(Replay(mac, others), j)
    {
      SameTextSameInput(mac, payloads, others, j);
    }
  }

  lemma {:induction false} ReplayIsIntact(mac: string -> string, payloads: seq<Payload>)
    ensures Intact(mac, Replay(mac, payloads))
  {
    PayloadsOfReplay(mac, payloads);
  }
}
