/**
 Reading the card information structure of an SDIO card: a list of tuples (code,
 length, body) that is fetched and scanned 32 bytes at a time.
 */
module SdCis {
  import opened Buffers

  // A failed transfer reports the host's own code.
  datatype Status = Ok | InvalidSize | InvalidResponse | NotFound | HostError(code: nat)

  const CIS_GET_MINIMAL_SIZE := 32
  const CISTPL_CODE_END: byte := 0xFF
  const MAX_BYTE_TRANSFER := 512
  const UINT32_MAX := 0xFFFF_FFFF

  // What the registers of a card hold, zero behind the last one given, and how
  // each transfer to it ends, without error behind the last one given.
  datatype World = World(registers: seq<byte>, outcomes: seq<Status>) {
    function Register(a: nat): byte {
      if a < |registers| then registers[a] else 0
    }

    function Outcome(i: nat): Status {
      if i < |outcomes| then outcomes[i] else Ok
    }
  }

  function Bytes(w: World, from: nat, n: nat): (r: seq<byte>)
    ensures |r| == n
  {
    if n == 0 then [] else Bytes(w, from, n - 1) + [w.Register(from + n - 1)]
  }

  // ---------- the walk over the whole memory ----------

  datatype Found = At(offset: nat) | Nowhere

  // From the tuple at o: where the end tuple is, when only m can be read.
  function FlatEnd(m: seq<byte>, o: nat): (r: Found)
    ensures r.At? ==> o <= r.offset < |m| && m[r.offset] == CISTPL_CODE_END
    decreases |m| - o
  {
    if o >= |m| then Nowhere
    else if m[o] == CISTPL_CODE_END then At(o)
    else if o + 1 >= |m| then Nowhere
    else FlatEnd(m, o + 2 + m[o + 1])
  }

  // ---------- the scan of one window ----------

  // The loop of check_tuples_in_buffer.
  function TuplesFrom(buf: seq<byte>, offset: nat): (r: (bool, nat))
    decreases |buf| - offset
  {
    if offset < |buf| && buf[offset] == CISTPL_CODE_END then (true, offset + 1)
    else if offset + 1 < |buf| then TuplesFrom(buf, offset + buf[offset + 1] + 2)
    else (false, offset)
  }

  // check_tuples_in_buffer: at offset -1 the code was seen in the window before.
  function Tuples(buf: seq<byte>, offset: int): (bool, nat)
    requires buf != [] && offset >= -1
  {
    TuplesFrom(buf, if offset == -1 then buf[0] + 1 else offset)
  }

  method CheckTuplesInBuffer(buf: seq<byte>, inoutOffset: int) returns (found: bool, offset: nat)
    requires buf != [] && inoutOffset >= -1
    ensures (found, offset) == Tuples(buf, inoutOffset)
  {
    var cisOffset := inoutOffset;
    if cisOffset == -1 {
      cisOffset := cisOffset + buf[0] + 2;
    }
    while true
      invariant cisOffset >= 0 && TuplesFrom(buf, cisOffset) == Tuples(buf, inoutOffset)
      decreases |buf| - cisOffset
    {
      if cisOffset < |buf| {
        if buf[cisOffset] == CISTPL_CODE_END {
          return true, cisOffset + 1;
        }
      }
      if cisOffset + 1 < |buf| {
        cisOffset := cisOffset + buf[cisOffset + 1] + 2;
      } else {
        break;
      }
    }
    return false, cisOffset;
  }

  // Scanning a window inside m takes the walk to the end tuple, or to the first
  // tuple whose code or length lies behind the window.
  lemma {:induction false} WindowFrom(m: seq<byte>, b: nat, n: nat, o: nat)
    requires b + n <= |m| && n > 0
    ensures var (found, o') := TuplesFrom(m[b..b + n], o);
            if found then 0 < o' <= n && FlatEnd(m, b + o) == At(b + o' - 1)
            else && FlatEnd(m, b + o) == FlatEnd(m, b + o') && o' >= n - 1
                 && (o' == n - 1 ==> m[b + o'] != CISTPL_CODE_END)
    decreases n - o
  {
    var buf := m[b..b + n];
    if o < n {
      assert buf[o] == m[b + o];
      if o + 1 < n && buf[o] != CISTPL_CODE_END {
        assert buf[o + 1] == m[b + o + 1];
        WindowFrom(m, b, n, o + buf[o + 1] + 2);
      }
    }
  }

  lemma Window(m: seq<byte>, b: nat, n: nat, o: int)
    requires b + n <= |m| && n > 0 && o >= -1
    requires o == -1 ==> b > 0 && m[b - 1] != CISTPL_CODE_END
    ensures var (found, o') := Tuples(m[b..b + n], o);
            if found then 0 < o' <= n && FlatEnd(m, b + o) == At(b + o' - 1)
            else && FlatEnd(m, b + o) == FlatEnd(m, b + o') && o' >= n - 1
                 && (o' == n - 1 ==> m[b + o'] != CISTPL_CODE_END)
  {
    if o == -1 {
      assert m[b..b + n][0] == m[b];
      var skip: nat := m[b] as int + 1;
      WindowFrom(m, b, n, skip);
    } else {
      WindowFrom(m, b, n, o);
    }
  }

  // ---------- one read ----------

  // How a read of `size` bytes splits: a part divisible by four, and the rest.
  function Aligned(left: nat): nat {
    left - left % 4
  }

  function WillTransfer(left: nat): nat {
    if Aligned(left) > 0 then Aligned(left) else left
  }

  function Parts(size: nat): nat {
    (if size >= 4 then 1 else 0) + (if size % 4 != 0 then 1 else 0)
  }

  // How many of n transfers from number `from` on come before one that fails.
  function Good(w: World, from: nat, n: nat): (r: nat)
    ensures r <= n
    ensures forall i :: from <= i < from + r ==> w.Outcome(i).Ok?
    ensures r < n ==> !w.Outcome(from + r).Ok?
    decreases n
  {
    if n == 0 || !w.Outcome(from).Ok? then 0 else 1 + Good(w, from + 1, n - 1)
  }

  // The first failure among n transfers, if any.
  function Ending(w: World, from: nat, n: nat): Status {
    var good := Good(w, from, n);
    if good < n then w.Outcome(from + good) else Ok
  }

  function ReadStatus(w: World, from: nat, size: nat): Status {
    Ending(w, from, Parts(size))
  }

  lemma PartsNext(left: nat)
    requires left > 0
    ensures var n := WillTransfer(left);
            && 0 < n <= left && left - n < 4 && Parts(left) == 1 + Parts(left - n)
            && (n > MAX_BYTE_TRANSFER <==> left >= MAX_BYTE_TRANSFER + 4)
  {
  }

  lemma NothingLeft(w: World, addr: nat)
    ensures Bytes(w, addr, 0) == [] && Parts(0) == 0
  {
  }

  lemma NothingMore(w: World, from: nat)
    ensures ReadStatus(w, from, 0) == Ok
  {
  }

  lemma ReadStatusNext(w: World, from: nat, left: nat)
    requires left > 0
    ensures ReadStatus(w, from, left)
         == if !w.Outcome(from).Ok? then w.Outcome(from) else ReadStatus(w, from + 1, left - WillTransfer(left))
  {
    PartsNext(left);
  }

  lemma {:induction false} BytesJoin(w: World, from: nat, n: nat, k: nat)
    ensures Bytes(w, from, n) + Bytes(w, from + n, k) == Bytes(w, from, n + k)
  {
    if k > 0 {
      BytesJoin(w, from, n, k - 1);
    }
  }

  // ---------- reading it all ----------

  function Address(bs: seq<byte>): nat
    requires |bs| == 3
  {
    bs[0] as int + 0x100 * bs[1] as int + 0x10000 * bs[2] as int
  }

  // Where window k starts.
  function Base(k: nat): nat {
    32 * k
  }

  // The number of windows that hold n bytes.
  function Windows(n: nat): (k: nat)
    ensures n <= Base(k) && (k > 0 ==> Base(k - 1) < n)
  {
    (n + 31) / 32
  }

  function MaxReading(limit: nat): nat {
    if limit == 0 then UINT32_MAX else limit
  }

  // out once the first n bytes of m are copied, as far as they fit.
  function Copied(out: seq<byte>, m: seq<byte>, n: nat): (r: seq<byte>)
    requires n <= |m|
    ensures |r| == |out|
  {
    Overwrite(out, 0, m[..Min(n, |out|)])
  }

  // All that may be read: whole windows up to the limit.
  function Memory(w: World, addr: nat, limit: nat): (m: seq<byte>)
    ensures |m| == Base(Windows(MaxReading(limit)))
  {
    Bytes(w, addr, Base(Windows(MaxReading(limit))))
  }

  function CisAt(w: World, t: nat, addr: nat, limit: nat, out: seq<byte>): (Status, nat, seq<byte>) {
    var m := Memory(w, addr, limit);
    var end := FlatEnd(m, 0);
    var total := if end.At? then end.offset + 1 else |m|;
    var good := Good(w, t, Windows(total));
    if good < Windows(total) then (w.Outcome(t + good), limit, Copied(out, m, Base(good)))
    else if end.At? then (if total > |out| then InvalidSize else Ok, total, Copied(out, m, total))
    else (NotFound, limit, Copied(out, m, total))
  }

  // What sdmmc_io_get_cis_data is to return and leave in the caller's size and
  // buffer, by one walk over the memory that may be read.
  function Cis(w: World, t: nat, limit: nat, out: seq<byte>): (Status, nat, seq<byte>) {
    if !w.Outcome(t).Ok? then (w.Outcome(t), limit, out)
    else
      var addr := Address(Bytes(w, 9, 3));
      if addr < 0x1000 || addr > 0x17FFF then (InvalidResponse, limit, out)
      else CisAt(w, t + 1, addr, limit, out)
  }

  // k windows read and scanned without meeting the end tuple; the next tuple is at c.
  ghost predicate Scanned(w: World, t: nat, m: seq<byte>, k: nat, c: int, before: seq<byte>, out: seq<byte>) {
    var b := Base(k);
    && b <= |m| && b - 1 <= c && (c == b - 1 ==> k > 0 && m[c] != CISTPL_CODE_END)
    && (c >= 0 && FlatEnd(m, 0) == FlatEnd(m, c))
    && Good(w, t, k) == k
    && out == Copied(before, m, b)
  }

  // The first failure among k + 1 transfers of which k succeed.
  lemma {:induction false} GoodNext(w: World, from: nat, k: nat, n: nat)
    requires k < n && Good(w, from, k) == k
    ensures w.Outcome(from + k).Ok? ==> Good(w, from, k + 1) == k + 1
    ensures !w.Outcome(from + k).Ok? ==> Good(w, from, n) == k
    decreases k
  {
    if k > 0 {
      GoodNext(w, from + 1, k - 1, n - 1);
    }
  }

  // The window of m that the next transfer brings in.
  lemma {:induction false} WindowBytes(w: World, from: nat, b: nat, n: nat, total: nat)
    requires b + n <= total
    ensures Bytes(w, from, total)[b..b + n] == Bytes(w, from + b, n)
    decreases total
  {
    if total > b + n {
      WindowBytes(w, from, b, n, total - 1);
      assert Bytes(w, from, total)[b..b + n] == Bytes(w, from, total - 1)[b..b + n];
    } else {
      BytesJoin(w, from, b, n);
    }
  }

  // The first n bytes of a window copied to out[at..], or as many of them as fit.
  function Placed(out: seq<byte>, at: nat, buf: seq<byte>, n: nat): (r: seq<byte>)
    requires n <= |buf|
    ensures |r| == |out|
  {
    if at >= |out| then out else Overwrite(out, at, buf[..Min(n, |out| - at)])
  }

  lemma NothingPlaced(out: seq<byte>, at: nat, buf: seq<byte>, n: nat)
    requires n <= |buf|
    ensures n == 0 ==> Placed(out, at, buf, n) == out
  {
  }

  lemma CopyOn(before: seq<byte>, m: seq<byte>, b: nat, n: nat)
    requires n <= CIS_GET_MINIMAL_SIZE && b + CIS_GET_MINIMAL_SIZE <= |m|
    ensures Copied(before, m, b + n) == Placed(Copied(before, m, b), b, m[b..b + CIS_GET_MINIMAL_SIZE], n)
  {
    if b < |before| {
      var len := Min(n, |before| - b);
      assert Min(b, |before|) == b && Min(b + n, |before|) == b + len;
      OverwriteOn(before, 0, m[..b], m[b..b + len]);
      assert m[..b] + m[b..b + len] == m[..b + len];
      assert m[b..b + CIS_GET_MINIMAL_SIZE][..len] == m[b..b + len];
    }
  }

  // The end tuple is found inside the window or not at all.
  lemma TuplesInside(buf: seq<byte>, o: int)
    requires buf != [] && o >= -1
    ensures Tuples(buf, o).0 ==> Tuples(buf, o).1 <= |buf|
  {
    assert buf[0..0 + |buf|] == buf;
    WindowFrom(buf, 0, |buf|, if o == -1 then buf[0] as int + 1 else o);
  }

  // One more window.
  lemma ScanNext(w: World, t: nat, m: seq<byte>, k: nat, c: int, before: seq<byte>, out: seq<byte>)
    requires Scanned(w, t, m, k, c, before, out) && Base(k + 1) <= |m|
    requires w.Outcome(t + k).Ok?
    ensures var b := Base(k);
            var (found, o) := Tuples(m[b..b + CIS_GET_MINIMAL_SIZE], c - b);
            && Good(w, t, k + 1) == k + 1
            && if found then 0 < o <= CIS_GET_MINIMAL_SIZE && FlatEnd(m, 0) == At(b + o - 1)
               else Scanned(w, t, m, k + 1, b + o, before, Copied(before, m, b + CIS_GET_MINIMAL_SIZE))
  {
    var b := Base(k);
    GoodNext(w, t, k, k + 1);
    hide FlatEnd, Copied, Good;
    Window(m, b, CIS_GET_MINIMAL_SIZE, c - b);
  }

  // A read that is not split.
  lemma ReadOne(w: World, t: nat, size: nat)
    requires 0 < size && (size % 4 == 0 || size < 4)
    ensures Parts(size) == 1 && ReadStatus(w, t, size) == w.Outcome(t)
  {
    assert Good(w, t, 1) == if w.Outcome(t).Ok? then 1 else 0;
  }

  // What reading one window does.
  ghost predicate WindowDone(w: World, addr: nat, at: nat, c: nat, was: seq<byte>, found: bool, o: nat,
                             out: seq<byte>) {
    var buf := Bytes(w, addr + at, CIS_GET_MINIMAL_SIZE);
    && c >= at - 1 && (found, o) == Tuples(buf, c - at) && (found ==> o <= CIS_GET_MINIMAL_SIZE)
    && out == Placed(was, at, buf, if found then o else CIS_GET_MINIMAL_SIZE)
  }

  // The end tuple was found in the last window read; `total` counts it in.
  ghost predicate ScanDone(w: World, t: nat, m: seq<byte>, total: nat, before: seq<byte>, out: seq<byte>) {
    && 0 < total <= |m| && FlatEnd(m, 0) == At(total - 1)
    && Good(w, t, Windows(total)) == Windows(total)
    && out == Copied(before, m, total)
  }

  ghost predicate Reading(w: World, t: nat, m: seq<byte>, k: nat, found: bool, c: nat,
                          before: seq<byte>, out: seq<byte>)
  {
    if found then ScanDone(w, t, m, c, before, out) else Scanned(w, t, m, k, c, before, out)
  }

  lemma ScanStart(w: World, t: nat, m: seq<byte>, out: seq<byte>)
    ensures Reading(w, t, m, 0, false, 0, out, out)
  {
    assert m[..0] == [];
  }

  lemma AheadOfWindow(w: World, t: nat, m: seq<byte>, k: nat, c: nat, before: seq<byte>, out: seq<byte>)
    requires Reading(w, t, m, k, false, c, before, out)
    ensures c >= Base(k) - 1
  {
  }

  lemma WindowPlaced(w: World, addr: nat, m: seq<byte>, k: nat, c: nat, was: seq<byte>,
                     found: bool, o: nat, out: seq<byte>)
    requires Base(k) + CIS_GET_MINIMAL_SIZE <= |m|
    requires m[Base(k)..Base(k) + CIS_GET_MINIMAL_SIZE] == Bytes(w, addr + Base(k), CIS_GET_MINIMAL_SIZE)
    requires WindowDone(w, addr, Base(k), c, was, found, o, out)
    ensures c >= Base(k) - 1 && (found ==> o <= CIS_GET_MINIMAL_SIZE)
    ensures var buf := m[Base(k)..Base(k) + CIS_GET_MINIMAL_SIZE];
            && (found, o) == Tuples(buf, c - Base(k))
            && out == Placed(was, Base(k), buf, if found then o else CIS_GET_MINIMAL_SIZE)
  {
  }

  lemma ScannedCopied(w: World, t: nat, m: seq<byte>, k: nat, c: int, before: seq<byte>, out: seq<byte>)
    requires Scanned(w, t, m, k, c, before, out)
    ensures Base(k) <= |m| && out == Copied(before, m, Base(k))
  {
  }

  lemma OneWindowMore(k: nat, o: nat)
    requires 0 < o <= CIS_GET_MINIMAL_SIZE
    ensures Windows(Base(k) + o) == k + 1
  {
  }

  lemma ScanFound(w: World, t: nat, m: seq<byte>, k: nat, c: nat, before: seq<byte>, was: seq<byte>,
                  o: nat, out: seq<byte>)
    requires Scanned(w, t, m, k, c, before, was) && Base(k) + CIS_GET_MINIMAL_SIZE <= |m| && w.Outcome(t + k).Ok?
    requires c >= Base(k) - 1 && o <= CIS_GET_MINIMAL_SIZE
    requires var buf := m[Base(k)..Base(k) + CIS_GET_MINIMAL_SIZE];
             (true, o) == Tuples(buf, c - Base(k)) && out == Placed(was, Base(k), buf, o)
    ensures ScanDone(w, t, m, Base(k) + o, before, out)
  {
    ScanNext(w, t, m, k, c, before, was);
    ScannedCopied(w, t, m, k, c, before, was);
    hide FlatEnd, Copied, Good, Tuples, Placed, Scanned;
    CopyOn(before, m, Base(k), o);
    OneWindowMore(k, o);
  }

  lemma ScanMissed(w: World, t: nat, m: seq<byte>, k: nat, c: nat, before: seq<byte>, was: seq<byte>,
                   o: nat, out: seq<byte>)
    requires Scanned(w, t, m, k, c, before, was) && Base(k) + CIS_GET_MINIMAL_SIZE <= |m| && w.Outcome(t + k).Ok?
    requires c >= Base(k) - 1
    requires var buf := m[Base(k)..Base(k) + CIS_GET_MINIMAL_SIZE];
             (false, o) == Tuples(buf, c - Base(k)) && out == Placed(was, Base(k), buf, CIS_GET_MINIMAL_SIZE)
    ensures Scanned(w, t, m, k + 1, Base(k) + o, before, out)
  {
    ScanNext(w, t, m, k, c, before, was);
    ScannedCopied(w, t, m, k, c, before, was);
    hide FlatEnd, Copied, Good, Tuples, Placed, Scanned;
    CopyOn(before, m, Base(k), CIS_GET_MINIMAL_SIZE);
  }

  lemma MoreWindows(w: World, addr: nat, limit: nat, k: nat)
    requires Base(k) < MaxReading(limit)
    ensures var m, b := Memory(w, addr, limit), Base(k);
            b + CIS_GET_MINIMAL_SIZE <= |m|
            && m[b..b + CIS_GET_MINIMAL_SIZE] == Bytes(w, addr + b, CIS_GET_MINIMAL_SIZE)
  {
    hide MaxReading, Bytes;
    assert k < Windows(MaxReading(limit));
    WindowBytes(w, addr, Base(k), CIS_GET_MINIMAL_SIZE, Base(Windows(MaxReading(limit))));
  }

  // What the loop has after a window is scanned and copied.
  lemma ScanCopies(w: World, t: nat, addr: nat, limit: nat, k: nat, c: nat, before: seq<byte>, was: seq<byte>,
                   found: bool, o: nat, out: seq<byte>)
    requires Reading(w, t, Memory(w, addr, limit), k, false, c, before, was)
    requires Base(k) < MaxReading(limit) && w.Outcome(t + k).Ok?
    requires WindowDone(w, addr, Base(k), c, was, found, o, out)
    ensures Reading(w, t, Memory(w, addr, limit), k + 1, found, Base(k) + o, before, out)
  {
    var m := Memory(w, addr, limit);
    MoreWindows(w, addr, limit, k);
    hide Memory, MaxReading, Scanned, ScanDone, WindowDone;
    WindowPlaced(w, addr, m, k, c, was, found, o, out);
    if found {
      ScanFound(w, t, m, k, c, before, was, o, out);
    } else {
      ScanMissed(w, t, m, k, c, before, was, o, out);
    }
  }

  lemma WholeWindows(k: nat)
    ensures Windows(Base(k)) == k
  {
  }

  // An end tuple lies behind the windows already scanned.
  lemma EndBehind(w: World, t: nat, m: seq<byte>, k: nat, c: nat, before: seq<byte>, out: seq<byte>)
    requires Scanned(w, t, m, k, c, before, out)
    ensures FlatEnd(m, 0).At? ==> FlatEnd(m, 0).offset >= Base(k)
  {
  }

  // The three ways to leave the loop.
  lemma ScanFails(w: World, t: nat, addr: nat, limit: nat, k: nat, c: nat, before: seq<byte>, out: seq<byte>)
    requires Reading(w, t, Memory(w, addr, limit), k, false, c, before, out)
    requires Base(k) < MaxReading(limit) && !w.Outcome(t + k).Ok?
    ensures (w.Outcome(t + k), limit, out) == CisAt(w, t, addr, limit, before)
  {
    var m := Memory(w, addr, limit);
    var end := FlatEnd(m, 0);
    EndBehind(w, t, m, k, c, before, out);
    var total := if end.At? then end.offset + 1 else |m|;
    hide FlatEnd, Memory, Good, Copied, MaxReading;
    assert total > Base(k);
    GoodNext(w, t, k, Windows(total));
  }

  lemma ScanEnds(w: World, t: nat, addr: nat, limit: nat, k: nat, total: nat, before: seq<byte>, out: seq<byte>)
    requires Reading(w, t, Memory(w, addr, limit), k, true, total, before, out)
    ensures (if total > |before| then InvalidSize else Ok, total, out) == CisAt(w, t, addr, limit, before)
  {
  }

  lemma ScanExhausted(w: World, t: nat, addr: nat, limit: nat, k: nat, c: nat, before: seq<byte>, out: seq<byte>)
    requires Reading(w, t, Memory(w, addr, limit), k, false, c, before, out)
    requires Base(k) >= MaxReading(limit)
    ensures (NotFound, limit, out) == CisAt(w, t, addr, limit, before)
  {
    var m := Memory(w, addr, limit);
    EndBehind(w, t, m, k, c, before, out);
    hide FlatEnd, Memory, Good, Copied, MaxReading;
    WholeWindows(k);
    assert k == Windows(MaxReading(limit));
  }

  // ---------- a card that holds tuples ----------

  type Code = x: byte | x != 0xFF
  type Body = s: seq<byte> | |s| < 256

  // A tuple is a code, the length of its body, and the body.
  datatype Tuple = Tuple(code: Code, body: Body)

  function Encoded(ts: seq<Tuple>): seq<byte> {
    if ts == [] then []
    else
      var len: byte := |ts[0].body|;
      [ts[0].code, len] + ts[0].body + Encoded(ts[1..])
  }

  lemma FirstTuple(ts: seq<Tuple>)
    requires ts != []
    ensures var e, n := Encoded(ts), 2 + |ts[0].body|;
            n <= |e| && e[0] == ts[0].code && e[1] == n - 2 && e[n..] == Encoded(ts[1..])
  {
    var len: byte := |ts[0].body|;
    assert Encoded(ts) == ([ts[0].code, len] + ts[0].body) + Encoded(ts[1..]);
  }

  lemma FlatNext(m: seq<byte>, o: nat)
    requires o + 1 < |m| && m[o] != 0xFF
    ensures FlatEnd(m, o) == FlatEnd(m, o + 2 + m[o + 1])
  {
  }

  // The walk passes over every tuple, and finds the end tuple behind the last.
  lemma {:induction false} WalkOverTuples(m: seq<byte>, o: nat, ts: seq<Tuple>)
    requires var e := Encoded(ts); o + |e| < |m| && m[o..o + |e|] == e && m[o + |e|] == 0xFF
    ensures FlatEnd(m, o) == At(o + |Encoded(ts)|)
    decreases |ts|
  {
    if ts == [] {
    } else {
      hide Encoded, FlatEnd;
      var e, n := Encoded(ts), 2 + |ts[0].body|;
      FirstTuple(ts);
      assert m[o..o + |e|][0] == m[o] && m[o..o + |e|][1] == m[o + 1];
      assert m[o..o + |e|][n..] == m[o + n..o + |e|];
      FlatNext(m, o);
      WalkOverTuples(m, o + n, ts[1..]);
    }
  }

  lemma {:induction false} AllGood(w: World, from: nat, n: nat)
    requires forall i :: 0 <= i < |w.outcomes| ==> w.outcomes[i].Ok?
    ensures Good(w, from, n) == n
    decreases n
  {
    if n > 0 {
      AllGood(w, from + 1, n - 1);
    }
  }

  lemma {:induction false} BytesPrefix(w: World, from: nat, k: nat, n: nat)
    requires k <= n
    ensures Bytes(w, from, n)[..k] == Bytes(w, from, k)
    decreases n
  {
    if k < n {
      BytesPrefix(w, from, k, n - 1);
      assert Bytes(w, from, n)[..k] == Bytes(w, from, n - 1)[..k];
    }
  }

  lemma ThreeBytes(w: World)
    ensures Bytes(w, 9, 3) == [w.Register(9), w.Register(10), w.Register(11)]
  {
    assert Bytes(w, 9, 1) == [w.Register(9)];
    assert Bytes(w, 9, 2) == [w.Register(9), w.Register(10)];
  }

  // The pointer in registers 9 to 11 is checked against the region of the standard.
  lemma PointerIsChecked(w: World, t: nat, limit: nat, out: seq<byte>)
    ensures var addr := w.Register(9) as int + 256 * w.Register(10) as int + 65536 * w.Register(11) as int;
            w.Outcome(t).Ok? && !(0x1000 <= addr <= 0x17FFF) ==> Cis(w, t, limit, out) == (InvalidResponse, limit, out)
  {
    hide Bytes, CisAt;
    ThreeBytes(w);
  }

  lemma MemoryHolds(w: World, addr: nat, limit: nat, n: nat)
    requires n <= MaxReading(limit)
    ensures n <= |Memory(w, addr, limit)| && Memory(w, addr, limit)[..n] == Bytes(w, addr, n)
  {
    BytesPrefix(w, addr, n, Base(Windows(MaxReading(limit))));
  }

  lemma AtIsRead(w: World, t: nat, addr: nat, limit: nat, out: seq<byte>, ts: seq<Tuple>)
    requires forall i :: 0 <= i < |w.outcomes| ==> w.outcomes[i].Ok?
    requires var cis := Encoded(ts) + [0xFF]; Bytes(w, addr, |cis|) == cis && |cis| <= MaxReading(limit)
    ensures var cis := Encoded(ts) + [0xFF];
            CisAt(w, t, addr, limit, out) ==
            (if |cis| > |out| then InvalidSize else Ok, |cis|, Overwrite(out, 0, cis[..Min(|cis|, |out|)]))
  {
    hide Bytes, Encoded, FlatEnd, Good, Memory, Windows, Base, Overwrite;
    var e, m := Encoded(ts), Memory(w, addr, limit);
    var cis := e + [0xFF];
    MemoryHolds(w, addr, limit, |cis|);
    assert m[..|cis|] == cis;
    assert m[..|e|] == cis[..|e|] == e && m[|e|] == cis[|e|];
    WalkOverTuples(m, 0, ts);
    AllGood(w, t, Windows(|cis|));
    assert m[..|cis|][..Min(|cis|, |out|)] == m[..Min(|cis|, |out|)];
  }

  lemma OverwriteStart(out: seq<byte>, bs: seq<byte>)
    requires |bs| <= |out|
    ensures Overwrite(out, 0, bs) == bs + out[|bs|..]
  {
  }

  // From a card that holds any tuples and an end tuple where registers 9 to 11 point,
  // with no transfer failing and no limit in the way, the call delivers all of them,
  // as far as they fit, and their exact length.
  lemma CisIsRead(w: World, t: nat, limit: nat, out: seq<byte>, ts: seq<Tuple>)
    requires forall i :: 0 <= i < |w.outcomes| ==> w.outcomes[i].Ok?
    requires var addr := w.Register(9) as int + 256 * w.Register(10) as int + 65536 * w.Register(11) as int;
             var cis := Encoded(ts) + [0xFF];
             && 0x1000 <= addr <= 0x17FFF && Bytes(w, addr, |cis|) == cis
             && |cis| <= if limit == 0 then 0xFFFF_FFFF else limit
    ensures var cis := Encoded(ts) + [0xFF];
            Cis(w, t, limit, out) ==
            if |cis| <= |out| then (Ok, |cis|, cis + out[|cis|..]) else (InvalidSize, |cis|, cis[..|out|])
  {
    hide Bytes, Encoded, CisAt, Overwrite;
    var addr := w.Register(9) as int + 256 * w.Register(10) as int + 65536 * w.Register(11) as int;
    var cis := Encoded(ts) + [0xFF];
    ThreeBytes(w);
    AtIsRead(w, t + 1, addr, limit, out, ts);
    OverwriteStart(out, cis[..Min(|cis|, |out|)]);
    if |cis| <= |out| {
      assert cis[..|cis|] == cis;
    } else {
      assert cis[..|out|] + out[|out|..] == cis[..|out|];
    }
  }

  // ---------- the driver ----------

  // A card behind a host, and how many transfers there have been.
  class Card {
    const world: World
    var transfers: nat

    constructor (world: World)
      ensures this.world == world && transfers == 0
    {
      this.world, transfers := world, 0;
    }

    // sdmmc_io_rw_extended in byte mode with incrementing address; `data` is what
    // arrives at the destination.
    method RwExtended(reg: nat, size: nat) returns (err: Status, data: seq<byte>)
      modifies `transfers
      ensures if size > 512 then err == InvalidSize && transfers == old(transfers)
              else err == world.Outcome(old(transfers)) && transfers == old(transfers) + 1
      ensures data == if err.Ok? then Bytes(world, reg, size) else []
    {
      if size > MAX_BYTE_TRANSFER {
        return InvalidSize, [];
      }
      err := world.Outcome(transfers);
      transfers := transfers + 1;
      data := if err.Ok? then Bytes(world, reg, size) else [];
    }

    // sdmmc_io_read_bytes.
    method ReadBytes(addr: nat, size: nat) returns (err: Status, data: seq<byte>)
      modifies `transfers
      ensures size >= 516 ==> err == InvalidSize && transfers == old(transfers)
      ensures size < 516 ==> err == ReadStatus(world, old(transfers), size)
      ensures err.Ok? ==> transfers == old(transfers) + Parts(size) && data == Bytes(world, addr, size)
    {
      hide Parts, ReadStatus, Bytes, Aligned;
      err, data := Ok, [];
      var left := size;
      NothingLeft(world, addr);
      while left > 0
        invariant err.Ok? && |data| + left == size
        invariant left == size || (left < 4 && size < MAX_BYTE_TRANSFER + 4)
        invariant transfers + Parts(left) == old(transfers) + Parts(size)
        invariant ReadStatus(world, old(transfers), size) == ReadStatus(world, transfers, left)
        invariant data == Bytes(world, addr, |data|)
      {
        var aligned := Aligned(left);
        var willTransfer := if aligned > 0 then aligned else left;
        PartsNext(left);
        ReadStatusNext(world, transfers, left);
        var part;
        err, part := RwExtended(addr + |data|, willTransfer);
        if !err.Ok? {
          return;
        }
        BytesJoin(world, addr, |data|, willTransfer);
        data, left := data + part, left - willTransfer;
      }
      NothingMore(world, transfers);
    }

    // One round of the loop below: a window is read, scanned and copied as far as
    // it fits.
    method ReadWindow(addr: nat, at: nat, cur: nat, out: array<byte>)
      returns (ret: Status, found: bool, offset: nat)
      requires cur >= at - 1
      modifies `transfers, out
      ensures ret == world.Outcome(old(transfers))
      ensures !ret.Ok? ==> out[..] == old(out[..])
      ensures ret.Ok? ==> transfers == old(transfers) + 1
      ensures ret.Ok? ==> WindowDone(world, addr, at, cur, old(out[..]), found, offset, out[..])
    {
      found, offset := false, 0;
      hide Tuples, Bytes, Ending, Parts;
      var buf;
      ret, buf := ReadBytes(addr + at, CIS_GET_MINIMAL_SIZE);
      ReadOne(world, old(transfers), CIS_GET_MINIMAL_SIZE);
      if ret.Ok? {
        found, offset := CheckTuplesInBuffer(buf, cur - at);
        TuplesInside(buf, cur - at);
        var remain: int := out.Length - at;
        var n := if found then offset else CIS_GET_MINIMAL_SIZE;
        var len: int := if n < remain then n else remain;
        if len > 0 {
          Memcpy(out, at, buf[..len]);
        }
        NothingPlaced(old(out[..]), at, buf, n);
      }
    }

    // The do-while loop of sdmmc_io_get_cis_data.
    method ReadWindows(addr: nat, out: array<byte>, limit: nat) returns (ret: Status, size: nat)
      modifies `transfers, out
      ensures (ret, size, out[..]) == CisAt(world, old(transfers), addr, limit, old(out[..]))
    {
      hide Scanned, ScanDone, CisAt, WindowDone, MaxReading, Memory, Reading;
      ret, size := Ok, limit;
      var maxReading: nat := MaxReading(limit);
      var bufferOffset: nat, cur: nat, found := 0, 0, false;
      ghost var t, k: nat, before := transfers, 0, out[..];
      ghost var m := Memory(world, addr, limit);
      ScanStart(world, t, m, before);
      while !found && bufferOffset < maxReading
        invariant bufferOffset == Base(k) && transfers == t + k
        invariant Reading(world, t, m, k, found, cur, before, out[..])
        decreases !found, maxReading - bufferOffset
      {
        ghost var was := out[..];
        var offset;
        AheadOfWindow(world, t, m, k, cur, before, was);
        ret, found, offset := ReadWindow(addr, bufferOffset, cur, out);
        if !ret.Ok? {
          ScanFails(world, t, addr, limit, k, cur, before, was);
          return;
        }
        ScanCopies(world, t, addr, limit, k, cur, before, was, found, offset, out[..]);
        cur := bufferOffset + offset;
        bufferOffset, k := bufferOffset + CIS_GET_MINIMAL_SIZE, k + 1;
      }
      if found {
        size := cur;
        ret := if cur > out.Length then InvalidSize else Ok;
        ScanEnds(world, t, addr, limit, k, cur, before, out[..]);
      } else {
        ret := NotFound;
        ScanExhausted(world, t, addr, limit, k, cur, before, out[..]);
      }
    }

    // sdmmc_io_get_cis_data.
    method GetCisData(out: array<byte>, limit: nat) returns (ret: Status, size: nat)
      modifies `transfers, out
      ensures (ret, size, out[..]) == Cis(world, old(transfers), limit, old(out[..]))
    {
      size := limit;
      var bs;
      ret, bs := ReadBytes(9, 3);
      ReadOne(world, old(transfers), 3);
      hide CisAt, Ending, Parts;
      if !ret.Ok? {
        return;
      }
      var addr := Address(bs);
      if addr < 0x1000 || addr > 0x17FFF {
        return InvalidResponse, limit;
      }
      ret, size := ReadWindows(addr, out, limit);
    }
  }
}
