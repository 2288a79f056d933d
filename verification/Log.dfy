/** The redo log of the file system (log.c): on-disk header, commit, recovery, and crashes between
    any two block writes. A platter is a sequence of blocks; what commit and recovery do to it is the
    list of block writes they issue, so a crash leaves the result of a prefix of that list. */
module Log {
  import opened Blocks

  const MAXOPBLOCKS := 10
  const LOGSIZE := 30

  type Disk = seq<Block>
  datatype Write = Write(blockno: nat, data: Block)

  // `log.start` and `log.size`: the header block, then the log blocks.
  datatype Geometry = Geometry(start: nat, size: nat)

  predicate InLog(g: Geometry, b: nat) {
    g.start <= b < g.start + g.size
  }

  // ---------------------------------------------------------------- block writes

  function Put(d: Disk, b: nat, data: Block): Disk {
    if b < |d| then d[b := data] else d
  }

  function Apply(d: Disk, ws: seq<Write>): (r: Disk)
    ensures |r| == |d|
  {
    if ws == [] then d
    else
      var w := ws[|ws| - 1];
      Put(Apply(d, ws[..|ws| - 1]), w.blockno, w.data)
  }

  lemma ApplySnoc(d: Disk, ws: seq<Write>, w: Write)
    ensures Apply(d, ws + [w]) == Put(Apply(d, ws), w.blockno, w.data)
  {
    assert (ws + [w])[..|ws|] == ws;
  }

  lemma ApplyNext(d: Disk, ws: seq<Write>, k: nat)
    requires k < |ws|
    ensures ws[..k + 1] == ws[..k] + [ws[k]]
    ensures Apply(d, ws[..k + 1]) == Put(Apply(d, ws[..k]), ws[k].blockno, ws[k].data)
  {
    ApplySnoc(d, ws[..k], ws[k]);
  }

  lemma {:induction false} ApplyConcat(d: Disk, xs: seq<Write>, ys: seq<Write>)
    ensures Apply(d, xs + ys) == Apply(Apply(d, xs), ys)
  {
    if ys == [] {
      assert xs + ys == xs;
    } else {
      ApplyConcat(d, xs, ys[..|ys| - 1]);
      assert (xs + ys)[..|xs + ys| - 1] == xs + ys[..|ys| - 1];
    }
  }

  lemma {:induction false} ApplyMisses(d: Disk, ws: seq<Write>, b: nat)
    requires b < |d|
    requires forall i :: 0 <= i < |ws| ==> ws[i].blockno != b
    ensures Apply(d, ws)[b] == d[b]
  {
    if ws != [] {
      ApplyMisses(d, ws[..|ws| - 1], b);
    }
  }

  lemma {:induction false} ApplyHits(d: Disk, ws: seq<Write>, k: nat)
    requires k < |ws| && ws[k].blockno < |d|
    requires forall i :: k < i < |ws| ==> ws[i].blockno != ws[k].blockno
    ensures Apply(d, ws)[ws[k].blockno] == ws[k].data
  {
    if k < |ws| - 1 {
      ApplyHits(d, ws[..|ws| - 1], k);
    }
  }

  // ---------------------------------------------------------------- the header block

  // What `read_head` takes from a header block, and what `write_head` leaves in it: `n` and the
  // first n entries are overwritten, the rest of the block keeps its old bytes.
  function Header(b: Block): (lh: seq<nat>)
    requires Word(b, 0) <= LOGSIZE
  {
    seq(Word(b, 0), i requires 0 <= i < Word(b, 0) => Word(b, 1 + i) as nat)
  }

  function PutEntries(b: Block, lh: seq<nat>, k: nat): Block
    requires k <= |lh| <= LOGSIZE && (forall i :: 0 <= i < |lh| ==> lh[i] < UINT)
  {
    if k == 0 then b else PutWord(PutEntries(b, lh, k - 1), k, lh[k - 1])
  }

  function EncodeHeader(b: Block, lh: seq<nat>): Block
    requires |lh| <= LOGSIZE && (forall i :: 0 <= i < |lh| ==> lh[i] < UINT)
  {
    PutEntries(PutWord(b, 0, |lh|), lh, |lh|)
  }

  lemma {:induction false} EntriesRead(b: Block, lh: seq<nat>, k: nat, j: nat)
    requires k <= |lh| <= LOGSIZE && j < WORDS && (forall i :: 0 <= i < |lh| ==> lh[i] < UINT)
    ensures Word(PutEntries(b, lh, k), j) == if 1 <= j <= k then lh[j - 1] else Word(b, j)
  {
    if k > 0 {
      EntriesRead(b, lh, k - 1, j);
      PutWordReads(PutEntries(b, lh, k - 1), k, lh[k - 1], j);
    }
  }

  // The header read back is the header written, whatever the block held before.
  lemma HeaderRoundTrip(b: Block, lh: seq<nat>)
    requires |lh| <= LOGSIZE && (forall i :: 0 <= i < |lh| ==> lh[i] < UINT)
    ensures Word(EncodeHeader(b, lh), 0) == |lh|
    ensures Header(EncodeHeader(b, lh)) == lh
    ensures forall i :: 0 <= i < |lh| ==> Word(EncodeHeader(b, lh), 1 + i) == lh[i]
  {
    var e := EncodeHeader(b, lh);
    PutWordReads(b, 0, |lh|, 0);
    EntriesRead(PutWord(b, 0, |lh|), lh, |lh|, 0);
    forall i | 0 <= i < |lh| ensures Word(e, 1 + i) == lh[i] {
      EntriesRead(PutWord(b, 0, |lh|), lh, |lh|, 1 + i);
    }
  }

  // ---------------------------------------------------------------- recovery

  // Block numbers a transaction may log: on the disk, outside the log, each once, and few enough.
  ghost predicate Loggable(g: Geometry, d: Disk, lh: seq<nat>) {
    && |lh| <= LOGSIZE && |lh| < g.size
    && (forall i :: 0 <= i < |lh| ==> lh[i] < |d| && !InLog(g, lh[i]))
    && (forall i, j :: 0 <= i < j < |lh| ==> lh[i] != lh[j])
  }

  // A platter on which the log area fits and the header describes a loggable transaction.
  ghost predicate Recoverable(g: Geometry, d: Disk) {
    && 0 < g.size && g.start + g.size <= |d| < UINT
    && Word(d[g.start], 0) <= LOGSIZE
    && Loggable(g, d, Header(d[g.start]))
  }

  function HomeWrites(g: Geometry, d: Disk, lh: seq<nat>): (ws: seq<Write>)
    requires g.start + |lh| < |d|
    ensures |ws| == |lh|
  {
    seq(|lh|, i requires 0 <= i < |lh| => Write(lh[i], d[g.start + 1 + i]))
  }

  // Every block write of `recover_from_log`, in order.
  ghost function RecoverWrites(g: Geometry, d: Disk): (ws: seq<Write>)
    requires Recoverable(g, d)
    ensures |ws| == |Header(d[g.start])| + 1
  {
    HomeWrites(g, d, Header(d[g.start])) + [Write(g.start, EncodeHeader(d[g.start], []))]
  }

  // The platter once an uninterrupted recovery has finished.
  ghost function Recovered(g: Geometry, d: Disk): (r: Disk)
    requires Recoverable(g, d)
    ensures |r| == |d|
  {
    Apply(d, RecoverWrites(g, d))
  }

  ghost predicate SameHome(g: Geometry, d: Disk, e: Disk) {
    |d| == |e| && forall b :: 0 <= b < |d| && !InLog(g, b) ==> d[b] == e[b]
  }

  ghost predicate SameLog(g: Geometry, d: Disk, e: Disk) {
    |d| == |e| && forall b :: 0 <= b < |d| && InLog(g, b) ==> d[b] == e[b]
  }

  lemma SameHomeTransitive(g: Geometry, a: Disk, b: Disk, c: Disk)
    requires SameHome(g, a, b) && SameHome(g, b, c)
    ensures SameHome(g, a, c)
  {
  }

  lemma HomeMisses(g: Geometry, d: Disk, k: nat, b: nat)
    requires Recoverable(g, d) && k <= |Header(d[g.start])| && b < |d| && b !in Header(d[g.start])[..k]
    ensures Apply(d, HomeWrites(g, d, Header(d[g.start]))[..k])[b] == d[b]
  {
    var lh := Header(d[g.start]);
    var ws := HomeWrites(g, d, lh)[..k];
    forall i | 0 <= i < k ensures ws[i].blockno != b { assert ws[i].blockno == lh[..k][i]; }
    hide Apply, Recoverable, Header, HomeWrites;
    ApplyMisses(d, ws, b);
  }

  lemma HomeHits(g: Geometry, d: Disk, k: nat, i: nat)
    requires Recoverable(g, d) && i < k <= |Header(d[g.start])|
    ensures var lh := Header(d[g.start]);
      lh[i] < |d| && Apply(d, HomeWrites(g, d, lh)[..k])[lh[i]] == d[g.start + 1 + i]
  {
    hide Apply, Word;
    ApplyHits(d, HomeWrites(g, d, Header(d[g.start]))[..k], i);
  }

  // After k home writes: logged blocks before k have their log copy, everything else is untouched.
  lemma HomePrefix(g: Geometry, d: Disk, k: nat)
    requires Recoverable(g, d) && k <= |Header(d[g.start])|
    ensures var lh, e := Header(d[g.start]), Apply(d, HomeWrites(g, d, Header(d[g.start]))[..k]);
      && SameLog(g, d, e)
      && (forall i :: 0 <= i < k ==> e[lh[i]] == d[g.start + 1 + i])
      && (forall b :: 0 <= b < |d| && b !in lh[..k] ==> e[b] == d[b])
  {
    hide Apply, Word, HomeWrites;
    var lh := Header(d[g.start]);
    assert forall b :: b in lh[..k] ==> !InLog(g, b);
    forall b: nat | b < |d| && b !in lh[..k]
      ensures Apply(d, HomeWrites(g, d, lh)[..k])[b] == d[b] { HomeMisses(g, d, k, b); }
    forall i | 0 <= i < k ensures Apply(d,
      HomeWrites(g, d, lh)[..k])[lh[i]] == d[g.start + 1 + i] { HomeHits(g, d, k, i); }
  }

  // The log block that the next home write copies still holds what it held before the first.
  lemma HomeSource(g: Geometry, d: Disk, k: nat)
    requires Recoverable(g, d) && k < |Header(d[g.start])|
    ensures Apply(d, HomeWrites(g, d, Header(d[g.start]))[..k])[g.start + 1 + k] == d[g.start + 1 + k]
  {
    hide Apply, Word, Header, HomeWrites;
    HomePrefix(g, d, k);
    assert InLog(g, g.start + 1 + k);
  }

  // The platter right before and right after the last write of a recovery, the emptied header.
  lemma RecoverEnd(g: Geometry, d: Disk)
    requires Recoverable(g, d)
    ensures var hs := HomeWrites(g, d, Header(d[g.start]));
      && Apply(d, hs)[g.start] == d[g.start]
      && Recovered(g, d) == Put(Apply(d, hs), g.start, EncodeHeader(d[g.start], []))
  {
    hide Apply, Word, EncodeHeader;
    var hs := HomeWrites(g, d, Header(d[g.start]));
    HomePrefix(g, d, |hs|);
    assert hs[..|hs|] == hs && InLog(g, g.start);
    ApplySnoc(d, hs, Write(g.start, EncodeHeader(d[g.start], [])));
  }

  // What recovery does to every block: logged blocks get their log copy, other home blocks stay,
  // and the header is emptied.
  lemma RecoveredAt(g: Geometry, d: Disk)
    requires Recoverable(g, d)
    ensures var lh, r := Header(d[g.start]), Recovered(g, d);
      && (forall i :: 0 <= i < |lh| ==> r[lh[i]] == d[g.start + 1 + i])
      && (forall b :: 0 <= b < |d| && b !in lh && b != g.start ==> r[b] == d[b])
      && r[g.start] == EncodeHeader(d[g.start], [])
      && Recoverable(g, r) && Header(r[g.start]) == []
  {
    hide Apply, Word, EncodeHeader, RecoverWrites, Recovered;
    var lh := Header(d[g.start]);
    var ws := HomeWrites(g, d, lh);
    HomePrefix(g, d, |lh|);
    assert ws[..|lh|] == ws && lh[..|lh|] == lh;
    RecoverEnd(g, d);
    HeaderRoundTrip(d[g.start], []);
  }

  // A platter with the same log, differing from d only at logged home blocks, recovers to the same
  // home blocks as d.
  lemma LogDecidesRecovery(g: Geometry, d: Disk, e: Disk)
    requires Recoverable(g, d) && SameLog(g, d, e)
    requires forall b :: 0 <= b < |d| && b !in Header(d[g.start]) ==> e[b] == d[b]
    ensures Recoverable(g, e) && SameHome(g, Recovered(g, e), Recovered(g, d))
  {
    hide Apply, EncodeHeader, RecoverWrites, Recovered, Word;
    var lh := Header(d[g.start]);
    assert InLog(g, g.start);
    assert e[g.start] == d[g.start];
    RecoveredAt(g, d);
    RecoveredAt(g, e);
    var re, rd := Recovered(g, e), Recovered(g, d);
    forall b: nat | b < |d| && !InLog(g, b) ensures re[b] == rd[b] {
      if b in lh {
        var i :| 0 <= i < |lh| && lh[i] == b;
        assert InLog(g, g.start + 1 + i);
        assert re[lh[i]] == rd[lh[i]];
      }
    }
  }

  // One crash inside recovery, after any number of its writes, loses nothing: recovering again
  // reaches the same home blocks.
  lemma CrashInRecovery(g: Geometry, d: Disk, k: nat)
    requires Recoverable(g, d) && k <= |RecoverWrites(g, d)|
    ensures var e := Apply(d, RecoverWrites(g, d)[..k]);
      && Recoverable(g, e)
      && SameHome(g, Recovered(g, e), Recovered(g, d))
  {
    hide Apply, EncodeHeader, Word;
    var lh := Header(d[g.start]);
    if k <= |lh| {
      assert RecoverWrites(g, d)[..k] == HomeWrites(g, d, lh)[..k];
      HomePrefix(g, d, k);
      LogDecidesRecovery(g, d, Apply(d, HomeWrites(g, d, lh)[..k]));
    } else {
      assert RecoverWrites(g, d)[..k] == RecoverWrites(g, d);
      RecoveredAt(g, d);
      RecoveredAt(g, Recovered(g, d));
    }
  }

  // Recovery restarted after each of a list of crash points.
  ghost function CrashRun(g: Geometry, d: Disk, ks: seq<nat>): Disk
    requires Recoverable(g, d)
    decreases |ks|
  {
    if ks == [] then d
    else
      var ws := RecoverWrites(g, d);
      var k := if ks[0] <= |ws| then ks[0] else |ws|;
      CrashInRecovery(g, d, k);
      CrashRun(g, Apply(d, ws[..k]), ks[1..])
  }

  // Any number of crashes, each anywhere inside recovery: the recovery that completes leaves the
  // home blocks exactly as an uninterrupted one would have.
  lemma {:induction false} AnyCrashesInRecovery(g: Geometry, d: Disk, ks: seq<nat>)
    requires Recoverable(g, d)
    ensures Recoverable(g, CrashRun(g, d, ks))
    ensures SameHome(g, Recovered(g, CrashRun(g, d, ks)), Recovered(g, d))
    decreases |ks|
  {
    hide Apply, EncodeHeader, Word, Recoverable, RecoverWrites, Recovered;
    if ks != [] {
      var ws := RecoverWrites(g, d);
      var k := if ks[0] <= |ws| then ks[0] else |ws|;
      CrashInRecovery(g, d, k);
      AnyCrashesInRecovery(g, Apply(d, ws[..k]), ks[1..]);
    }
  }

  // Recovering a recovered platter changes no block at all, the header included.
  lemma RecoveryIdempotent(g: Geometry, d: Disk)
    requires Recoverable(g, d)
    ensures Recovered(g, Recovered(g, d)) == Recovered(g, d)
  {
    hide Apply, Word, RecoverWrites, Recovered;
    var r := Recovered(g, d);
    RecoveredAt(g, d);
    RecoveredAt(g, r);
    HeaderRoundTrip(d[g.start], []);
    assert EncodeHeader(r[g.start], []) == r[g.start];
  }

  // ---------------------------------------------------------------- commit

  // The disk as the file system sees it: dirty cached blocks in front of the platter.
  function Overlay(d: Disk, dirty: map<nat, Block>): Disk {
    seq(|d|, b requires 0 <= b < |d| => if b in dirty then dirty[b] else d[b])
  }

  function LogWrites(g: Geometry, dirty: map<nat, Block>, lh: seq<nat>): (ws: seq<Write>)
    requires forall i :: 0 <= i < |lh| ==> lh[i] in dirty
    ensures |ws| == |lh|
  {
    seq(|lh|, i requires 0 <= i < |lh| => Write(g.start + 1 + i, dirty[lh[i]]))
  }

  // An open transaction: an empty header on disk, and one dirty cached copy per logged block.
  ghost predicate Committable(g: Geometry, d: Disk, dirty: map<nat, Block>, lh: seq<nat>) {
    && Recoverable(g, d) && Header(d[g.start]) == []
    && Loggable(g, d, lh)
    && (forall b :: b in dirty <==> b in lh)
  }

  // On a disk whose header block is zeroed, as mkfs leaves it, a transaction of any one home block can
  // be committed.
  lemma FreshLogCommits(g: Geometry, d: Disk, b: nat, data: Block)
    requires 1 < g.size && g.start + g.size <= |d| < UINT && d[g.start] == ZeroBlock() && b < |d| && !InLog(g, b)
    ensures Committable(g, d, map[b := data], [b])
  {
    ZeroWords(0);
  }

  // The platter at the commit point: log blocks and header written, nothing installed yet.
  ghost function Logged(g: Geometry, d: Disk, dirty: map<nat, Block>, lh: seq<nat>): (r: Disk)
    requires Committable(g, d, dirty, lh)
    ensures |r| == |d|
  {
    Apply(d, LogWrites(g, dirty, lh) + [Write(g.start, EncodeHeader(d[g.start], lh))])
  }

  // Every block write of `commit`, in order: write_log, write_head, and then, because install_trans
  // followed by the clearing write_head is what recovery does, the writes of a recovery.
  ghost function CommitWrites(g: Geometry, d: Disk, dirty: map<nat, Block>, lh: seq<nat>): seq<Write>
    requires Committable(g, d, dirty, lh)
  {
    if lh == [] then []
    else
      LoggedAt(g, d, dirty, lh);
      LogWrites(g, dirty, lh) + [Write(g.start, EncodeHeader(d[g.start], lh))]
      + RecoverWrites(g, Logged(g, d, dirty, lh))
  }

  lemma LogPrefix(g: Geometry, d: Disk, dirty: map<nat, Block>, lh: seq<nat>, k: nat)
    requires Committable(g, d, dirty, lh) && k <= |lh|
    ensures var e := Apply(d, LogWrites(g, dirty, lh)[..k]);
      && SameHome(g, e, d) && e[g.start] == d[g.start]
      && (forall i :: 0 <= i < k ==> e[g.start + 1 + i] == dirty[lh[i]])
  {
    var ws := LogWrites(g, dirty, lh)[..k];
    assert forall i :: 0 <= i < k ==> ws[i] == Write(g.start + 1 + i, dirty[lh[i]]);
    assert g.start + k < g.start + g.size <= |d|;
    hide Apply, Recoverable, Loggable, Committable, LogWrites, Word, Header;
    forall b: nat | b < |d| && (!InLog(g, b) || b == g.start) ensures Apply(d, ws)[b] == d[b] {
      ApplyMisses(d, ws, b);
    }
    forall i | 0 <= i < k ensures Apply(d, ws)[g.start + 1 + i] == dirty[lh[i]] {
      ApplyHits(d, ws, i);
    }
  }

  // The platter right before the commit point: the header is still the old one.
  lemma HeadStep(g: Geometry, d: Disk, dirty: map<nat, Block>, lh: seq<nat>)
    requires Committable(g, d, dirty, lh)
    ensures var ws := LogWrites(g, dirty, lh);
      && Apply(d, ws)[g.start] == d[g.start]
      && Logged(g, d, dirty, lh) == Put(Apply(d, ws), g.start, EncodeHeader(d[g.start], lh))
  {
    hide Apply, EncodeHeader, Word;
    var ws := LogWrites(g, dirty, lh);
    LogPrefix(g, d, dirty, lh, |lh|);
    assert ws[..|lh|] == ws;
    ApplySnoc(d, ws, Write(g.start, EncodeHeader(d[g.start], lh)));
  }

  // The header block is on the disk, is not itself being written, and can hold every logged number.
  lemma HeadReady(g: Geometry, d: Disk, dirty: map<nat, Block>, lh: seq<nat>)
    requires Committable(g, d, dirty, lh)
    ensures g.start < |d| && g.start !in dirty && forall i :: 0 <= i < |lh| ==> lh[i] < UINT
  {
    assert InLog(g, g.start);
  }

  // The whole commit: the platter at the commit point, recovered.
  lemma CommitIsRecovery(g: Geometry, d: Disk, dirty: map<nat, Block>, lh: seq<nat>)
    requires Committable(g, d, dirty, lh) && lh != []
    ensures var e := Logged(g, d, dirty, lh);
      && Recoverable(g, e) && Header(e[g.start]) == lh
      && CommitWrites(g, d, dirty, lh)
         == (LogWrites(g, dirty, lh) + [Write(g.start, EncodeHeader(d[g.start], lh))]) + RecoverWrites(g, e)
      && Apply(d, CommitWrites(g, d, dirty, lh)) == Recovered(g, e)
  {
    hide Apply, EncodeHeader, Word, LogWrites;
    LoggedAt(g, d, dirty, lh);
    ApplyConcat(d, LogWrites(g, dirty, lh) + [Write(g.start, EncodeHeader(d[g.start], lh))],
                RecoverWrites(g, Logged(g, d, dirty, lh)));
  }

  lemma LoggedHeader(g: Geometry, d: Disk, dirty: map<nat, Block>, lh: seq<nat>)
    requires Committable(g, d, dirty, lh)
    ensures var e := Logged(g, d, dirty, lh);
      && Recoverable(g, e) && Header(e[g.start]) == lh && SameHome(g, e, d)
      && (forall i :: 0 <= i < |lh| ==> e[g.start + 1 + i] == dirty[lh[i]])
  {
    hide EncodeHeader, Word, LogWrites;
    var ws := LogWrites(g, dirty, lh);
    assert ws[..|lh|] == ws;
    LogPrefix(g, d, dirty, lh, |lh|);
    assert (ws + [Write(g.start, EncodeHeader(d[g.start], lh))])[..|lh|] == ws;
    HeaderRoundTrip(d[g.start], lh);
  }

  lemma LoggedAt(g: Geometry, d: Disk, dirty: map<nat, Block>, lh: seq<nat>)
    requires Committable(g, d, dirty, lh)
    ensures var e := Logged(g, d, dirty, lh);
      && Recoverable(g, e) && Header(e[g.start]) == lh
      && SameHome(g, Recovered(g, e), Overlay(d, dirty))
  {
    hide Apply, EncodeHeader, Word, LogWrites;
    var e := Logged(g, d, dirty, lh);
    LoggedHeader(g, d, dirty, lh);
    RecoveredAt(g, e);
    var r := Recovered(g, e);
    forall b: nat | b < |d| && !InLog(g, b) ensures r[b] == Overlay(d, dirty)[b] {
      if b in lh {
        var i :| 0 <= i < |lh| && lh[i] == b;
        assert r[lh[i]] == e[g.start + 1 + i] == dirty[lh[i]];
      }
    }
  }

  lemma CrashBeforeHead(g: Geometry, d: Disk, dirty: map<nat, Block>, lh: seq<nat>, k: nat)
    requires Committable(g, d, dirty, lh) && k <= |lh|
    ensures k <= |CommitWrites(g, d, dirty, lh)|
    ensures var e := Apply(d, CommitWrites(g, d, dirty, lh)[..k]);
      Recoverable(g, e) && SameHome(g, Recovered(g, e), d)
  {
    hide Apply, EncodeHeader, Word;
    var ws := LogWrites(g, dirty, lh)[..k];
    assert CommitWrites(g, d, dirty, lh)[..k] == ws;
    LogPrefix(g, d, dirty, lh, k);
    RecoveredAt(g, Apply(d, ws));
  }

  lemma SplitTake(head: seq<Write>, rest: seq<Write>, k: nat)
    requires |head| <= k <= |head| + |rest|
    ensures (head + rest)[..k] == head + rest[..k - |head|]
  {
  }

  // Past the header write, a commit is the first writes of a recovery of the logged platter.
  lemma CommitSplit(g: Geometry, d: Disk, dirty: map<nat, Block>, lh: seq<nat>, k: nat)
    requires Committable(g, d, dirty, lh) && |lh| < k <= |CommitWrites(g, d, dirty, lh)|
    ensures var e := Logged(g, d, dirty, lh);
      && Recoverable(g, e) && k - |lh| - 1 <= |RecoverWrites(g, e)|
      && Apply(d, CommitWrites(g, d, dirty, lh)[..k]) == Apply(e, RecoverWrites(g, e)[..k - |lh| - 1])
  {
    assert (forall i :: 0 <= i < |lh| ==> lh[i] in dirty && lh[i] < UINT) && |lh| <= LOGSIZE && g.start < |d|;
    assert |LogWrites(g, dirty, lh)| == |lh|;
    hide Apply, Recoverable, Loggable, Committable, SameHome, RecoverWrites, LogWrites, EncodeHeader, Overlay, Word,
      Logged;
    LoggedAt(g, d, dirty, lh);
    var head := LogWrites(g, dirty, lh) + [Write(g.start, EncodeHeader(d[g.start], lh))];
    var rest := RecoverWrites(g, Logged(g, d, dirty, lh));
    assert CommitWrites(g, d, dirty, lh) == head + rest;
    SplitTake(head, rest, k);
    ApplyConcat(d, head, rest[..k - |head|]);
  }

  lemma CrashAfterHead(g: Geometry, d: Disk, dirty: map<nat, Block>, lh: seq<nat>, k: nat)
    requires Committable(g, d, dirty, lh) && |lh| < k <= |CommitWrites(g, d, dirty, lh)|
    ensures var e := Apply(d, CommitWrites(g, d, dirty, lh)[..k]);
      Recoverable(g, e) && SameHome(g, Recovered(g, e), Overlay(d, dirty))
  {
    hide Apply, Recoverable, Loggable, Committable, SameHome, RecoverWrites, Logged, CommitWrites, Overlay, Recovered;
    var e := Logged(g, d, dirty, lh);
    LoggedAt(g, d, dirty, lh);
    CommitSplit(g, d, dirty, lh, k);
    CrashInRecovery(g, e, k - |lh| - 1);
    SameHomeTransitive(g, Recovered(g, Apply(d, CommitWrites(g, d, dirty, lh)[..k])), Recovered(g, e),
      Overlay(d, dirty));
  }

  // Crash atomicity of commit. Cut the commit after any number k of its block writes: recovery then
  // yields the old contents of every home block if the header was not yet written, and the new
  // contents of every home block otherwise.
  lemma CrashInCommit(g: Geometry, d: Disk, dirty: map<nat, Block>, lh: seq<nat>, k: nat)
    requires Committable(g, d, dirty, lh) && k <= |CommitWrites(g, d, dirty, lh)|
    ensures var e := Apply(d, CommitWrites(g, d, dirty, lh)[..k]);
      && Recoverable(g, e)
      && (k <= |lh| ==> SameHome(g, Recovered(g, e), d))
      && (k > |lh| ==> SameHome(g, Recovered(g, e), Overlay(d, dirty)))
  {
    if k <= |lh| {
      CrashBeforeHead(g, d, dirty, lh, k);
    } else {
      CrashAfterHead(g, d, dirty, lh, k);
    }
  }

  // Both halves together: a crash anywhere in commit, then any number of crashes anywhere in the
  // recoveries that follow, and the recovery that completes shows all of the transaction or none.
  lemma CrashAtomicity(g: Geometry, d: Disk, dirty: map<nat, Block>, lh: seq<nat>, k: nat, ks: seq<nat>)
    requires Committable(g, d, dirty, lh) && k <= |CommitWrites(g, d, dirty, lh)|
    ensures var e := Apply(d, CommitWrites(g, d, dirty, lh)[..k]);
      && Recoverable(g, e) && Recoverable(g, CrashRun(g, e, ks))
      && SameHome(g, Recovered(g, CrashRun(g, e, ks)), if k <= |lh| then d else Overlay(d, dirty))
  {
    hide Apply, EncodeHeader, Word, Recoverable, Committable, Recovered, RecoverWrites, CommitWrites;
    CrashInCommit(g, d, dirty, lh, k);
    AnyCrashesInRecovery(g, Apply(d, CommitWrites(g, d, dirty, lh)[..k]), ks);
  }

  // A commit that runs to its end needs no recovery: the home blocks already hold the transaction
  // and the header is empty again.
  lemma CommitCompletes(g: Geometry, d: Disk, dirty: map<nat, Block>, lh: seq<nat>)
    requires Committable(g, d, dirty, lh)
    ensures var e := Apply(d, CommitWrites(g, d, dirty, lh));
      && Committable(g, e, map[], []) && SameHome(g, e, Overlay(d, dirty))
  {
    assert lh == [] ==> CommitWrites(g, d, dirty, lh) == [] && Apply(d, []) == d;
    hide Apply, EncodeHeader, Word, RecoverWrites, Recovered;
    if lh != [] {
      LoggedAt(g, d, dirty, lh);
      CommitIsRecovery(g, d, dirty, lh);
      RecoveredAt(g, Logged(g, d, dirty, lh));
    }
  }
}
