/** The two-phase download of headers, src/headerssync.h:25-282 and src/headerssync.cpp:17-291. */
module HeadersSyncs {

  datatype Header = Header(version: int, prev: nat, merkleRoot: nat, time: nat, bits: nat, nonce: nat)

  /** A header without the hash of its predecessor. */
  datatype CompressedHeader = CompressedHeader(version: int, merkleRoot: nat, time: nat, bits: nat, nonce: nat)

  function Compress(h: Header): CompressedHeader {
    CompressedHeader(h.version, h.merkleRoot, h.time, h.bits, h.nonce)
  }

  function FullHeader(c: CompressedHeader, prev: nat): Header {
    Header(c.version, prev, c.merkleRoot, c.time, c.bits, c.nonce)
  }

  /** Where the sync starts, what it asks for, and the functions of the consensus code and of the
      hashers that it uses. */
  datatype Params = Params(startHeader: Header, startHeight: nat, startWork: nat, minimumWork: nat,
                           commitsAt: nat -> bool, bufferSize: nat, maxCommitments: nat,
                           hash: Header -> nat, commitment: nat -> bool, proof: nat -> nat,
                           permitted: (nat, nat, nat) -> bool)
  {
    function Bit(h: Header): bool { commitment(hash(h)) }
  }

  /** Commitments are made at every height that leaves the secret offset modulo the period. */
  function EveryPeriod(period: nat, offset: nat): nat -> bool
    requires period > 0
  {
    (height: nat) => height % period == offset
  }

  datatype Phase = Presync | Redownload | Final

  datatype ProcessingResult = ProcessingResult(headers: seq<Header>, success: bool, requestMore: bool)

  // ----- Chains of headers from the start -----

  /** The last header of the chain l, or the start. */
  function Last(p: Params, l: seq<Header>): Header {
    if l == [] then p.startHeader else l[|l| - 1]
  }

  function Work(p: Params, l: seq<Header>): nat {
    if l == [] then p.startWork else Work(p, l[..|l| - 1]) + p.proof(l[|l| - 1].bits)
  }

  /** The commitments to the headers of l, in order of height. */
  ghost function Bits(p: Params, l: seq<Header>): seq<bool>
  {
    if l == [] then [] else Bits(p, l[..|l| - 1]) + if p.commitsAt(p.startHeight + |l|) then [p.Bit(l[|l| - 1])] else []
  }

  /** How many of the first n heights after the start have a commitment. */
  ghost function Commits(p: Params, n: nat): nat
  {
    if n == 0 then 0 else Commits(p, n - 1) + if p.commitsAt(p.startHeight + n) then 1 else 0
  }

  lemma {:induction false} BitsLength(p: Params, l: seq<Header>)
    ensures |Bits(p, l)| == Commits(p, |l|)
  {
    if l != [] { BitsLength(p, l[..|l| - 1]); }
  }

  lemma {:induction false} CommitsMonotone(p: Params, m: nat, n: nat)
    requires m <= n
    ensures Commits(p, m) <= Commits(p, n)
  {
    if m < n { CommitsMonotone(p, m, n - 1); }
  }

  /** The commitment at position Commits(i) is the one to the header at index i, if there is one. */
  lemma {:induction false} BitAt(p: Params, l: seq<Header>, i: nat)
    requires p.commitsAt(p.startHeight + i + 1)
    ensures Commits(p, i) < |Bits(p, l)| <==> i < |l|
    ensures i < |l| ==> Bits(p, l)[Commits(p, i)] == p.Bit(l[i])
  {
    BitsLength(p, l);
    if i >= |l| {
      CommitsMonotone(p, |l|, i);
    } else {
      CommitsMonotone(p, i + 1, |l|);
      if i + 1 < |l| {
        BitAt(p, l[..|l| - 1], i);
        BitsLength(p, l[..|l| - 1]);
      } else {
        BitsLength(p, l[..i]);
      }
    }
  }

  // ----- What each phase accepts -----

  /** In presync: the difficulty may follow from that of the predecessor, and there is room for a commitment. */
  ghost predicate PresyncAccepts(p: Params, seen: seq<Header>, h: Header)
  {
    && p.permitted(p.startHeight + |seen| + 1, Last(p, seen).bits, h.bits)
    && (p.commitsAt(p.startHeight + |seen| + 1) ==> Commits(p, |seen| + 1) <= p.maxCommitments)
  }

  /** The commitment of a redownloaded header is that of the header seen at the same height, unless the
      redownloaded work is enough. */
  ghost predicate Matches(p: Params, seen: seq<Header>, l: seq<Header>, i: nat)
    requires i < |l|
  {
    p.commitsAt(p.startHeight + i + 1) && Work(p, l[..i + 1]) < p.minimumWork ==>
      i < |seen| && p.Bit(l[i]) == p.Bit(seen[i])
  }

  /**
   * In redownload: the header follows the last one, its difficulty may follow from prevBits, and its commitment
   * matches.
   */
  ghost predicate RedownloadAccepts(p: Params, seen: seq<Header>, l: seq<Header>, prevBits: nat, h: Header)
  {
    && h.prev == p.hash(Last(p, l)) && p.permitted(p.startHeight + |l| + 1, prevBits, h.bits)
    && Matches(p, seen, l + [h], |l|)
  }

  ghost predicate Follows(p: Params, l: seq<Header>, i: nat)
    requires i < |l|
  {
    l[i].prev == p.hash(Last(p, l[..i]))
  }

  ghost predicate Eased(p: Params, l: seq<Header>, i: nat)
    requires i < |l|
  {
    p.permitted(p.startHeight + i + 1, Last(p, l[..i]).bits, l[i].bits)
  }

  ghost predicate Chained(p: Params, l: seq<Header>) {
    forall i {:trigger Follows(p, l, i)} :: 0 <= i < |l| ==> Follows(p, l, i)
  }

  ghost predicate AllEased(p: Params, l: seq<Header>) {
    forall i {:trigger Eased(p, l, i)} :: 0 <= i < |l| ==> Eased(p, l, i)
  }

  ghost predicate AllMatch(p: Params, seen: seq<Header>, l: seq<Header>)
  {
    forall i {:trigger Matches(p, seen, l, i)} :: 0 <= i < |l| ==> Matches(p, seen, l, i)
  }

  // ----- One more header -----

  lemma ChainedNext(p: Params, l: seq<Header>, h: Header)
    requires Chained(p, l) && h.prev == p.hash(Last(p, l))
    ensures Chained(p, l + [h])
  {
    var m := l + [h];
    forall i | 0 <= i < |m| ensures Follows(p, m, i) {
      assert m[..i] == l[..i];
      if i < |l| { assert Follows(p, l, i); } else { assert l[..i] == l; }
    }
  }

  lemma EasedNext(p: Params, l: seq<Header>, h: Header)
    requires AllEased(p, l) && p.permitted(p.startHeight + |l| + 1, Last(p, l).bits, h.bits)
    ensures AllEased(p, l + [h])
  {
    var m := l + [h];
    forall i | 0 <= i < |m| ensures Eased(p, m, i) {
      assert m[..i] == l[..i];
      if i < |l| { assert Eased(p, l, i); } else { assert l[..i] == l; }
    }
  }

  lemma MatchNext(p: Params, seen: seq<Header>, l: seq<Header>, h: Header)
    requires AllMatch(p, seen, l) && Matches(p, seen, l + [h], |l|)
    ensures AllMatch(p, seen, l + [h])
  {
    var m := l + [h];
    forall i | 0 <= i < |m| ensures Matches(p, seen, m, i) {
      if i < |l| { assert Matches(p, seen, l, i) && m[..i + 1] == l[..i + 1]; }
    }
  }

  lemma WorkNext(p: Params, l: seq<Header>, h: Header)
    ensures Work(p, l + [h]) == Work(p, l) + p.proof(h.bits) && Last(p, l + [h]) == h
  {
    assert (l + [h])[..|l|] == l;
  }

  lemma BitsNext(p: Params, l: seq<Header>, h: Header, height: nat)
    requires height == p.startHeight + |l| + 1
    ensures Bits(p, l + [h]) == Bits(p, l) + if p.commitsAt(height) then [p.Bit(h)] else []
    ensures Commits(p, |l| + 1) == Commits(p, |l|) + if p.commitsAt(height) then 1 else 0
  {
    var m := l + [h];
    assert m[..|m| - 1] == l && p.startHeight + |m| == height;
  }

  /** All headers of a message are accepted, one after the other, on top of those seen. */
  ghost predicate PresyncAll(p: Params, seen: seq<Header>, headers: seq<Header>)
  {
    headers == [] || var n := |headers| - 1;
    PresyncAll(p, seen, headers[..n]) && PresyncAccepts(p, seen + headers[..n], headers[n])
  }

  lemma PresyncGrows(p: Params, seen: seq<Header>, headers: seq<Header>, k: nat)
    requires k < |headers| && PresyncAll(p, seen, headers[..k]) && PresyncAccepts(p, seen + headers[..k], headers[k])
    ensures PresyncAll(p, seen, headers[..k + 1]) && seen + headers[..k + 1] == seen + headers[..k] + [headers[k]]
  {
    assert headers[..k + 1][..k] == headers[..k];
  }

  lemma {:induction false} PresyncFails(p: Params, seen: seq<Header>, headers: seq<Header>, k: nat)
    requires k < |headers| && !PresyncAccepts(p, seen + headers[..k], headers[k])
    ensures !PresyncAll(p, seen, headers)
  {
    var n := |headers| - 1;
    if k < n {
      assert headers[..n][..k] == headers[..k];
      PresyncFails(p, seen, headers[..n], k);
    }
  }

  /** The difficulty before the header at index k of a message. */
  ghost function BitsBefore(prevBits: nat, headers: seq<Header>, k: nat): nat
    requires k <= |headers|
  {
    if k == 0 then prevBits else headers[k - 1].bits
  }

  /** All headers of a message are accepted, one after the other, on top of those stored. */
  ghost predicate RedownloadAll(p: Params, seen: seq<Header>, l: seq<Header>, prevBits: nat, headers: seq<Header>) {
    headers == [] || var n := |headers| - 1;
    && RedownloadAll(p, seen, l, prevBits, headers[..n])
    && RedownloadAccepts(p, seen, l + headers[..n], BitsBefore(prevBits, headers, n), headers[n])
  }

  lemma RedownloadGrows(p: Params, seen: seq<Header>, l: seq<Header>, prevBits: nat, headers: seq<Header>, k: nat)
    requires k < |headers| && RedownloadAll(p, seen, l, prevBits, headers[..k])
    requires RedownloadAccepts(p, seen, l + headers[..k], BitsBefore(prevBits, headers, k), headers[k])
    ensures RedownloadAll(p, seen, l, prevBits, headers[..k + 1])
            && l + headers[..k + 1] == l + headers[..k] + [headers[k]]
  {
    assert headers[..k + 1][..k] == headers[..k];
  }

  lemma {:induction false} RedownloadFails(p: Params, seen: seq<Header>, l: seq<Header>, prevBits: nat,
                                           headers: seq<Header>, k: nat)
    requires k < |headers| && !RedownloadAccepts(p, seen, l + headers[..k], BitsBefore(prevBits, headers, k),
                                                 headers[k])
    ensures !RedownloadAll(p, seen, l, prevBits, headers)
  {
    var n := |headers| - 1;
    if k < n {
      assert headers[..n][..k] == headers[..k];
      RedownloadFails(p, seen, l, prevBits, headers[..n], k);
    }
  }

  // ----- The state as values -----

  /** What holds of everything that was ever seen, stored and released. */
  ghost predicate HistoryOk(p: Params, seen: seq<Header>, stored: seq<Header>, released: seq<Header>) {
    && AllEased(p, seen) && Commits(p, |seen|) <= p.maxCommitments
    && Chained(p, stored) && AllMatch(p, seen, stored)
    && (p.bufferSize >= 1 ==> AllEased(p, stored))
    && released <= stored
    && (stored != [] ==> Work(p, seen) >= p.minimumWork)
    && (released != [] ==> |stored| - |released| >= p.bufferSize || Work(p, stored) >= p.minimumWork)
  }

  /**
   * Of all that is stored, everything is released once there is enough work, and otherwise everything but as much as
   * the buffer holds; n headers were released before.
   */
  ghost predicate ReleasedAll(p: Params, stored: seq<Header>, n: nat, released: seq<Header>) {
    && released <= stored
    && (Work(p, stored) >= p.minimumWork ==> released == stored)
    && (Work(p, stored) < p.minimumWork ==>
          |stored| - |released| == if p.bufferSize <= |stored| - n then p.bufferSize else |stored| - n)
  }

  lemma HistorySeen(p: Params, seen: seq<Header>, stored: seq<Header>, released: seq<Header>, h: Header)
    requires HistoryOk(p, seen, stored, released) && stored == [] && PresyncAccepts(p, seen, h)
    ensures HistoryOk(p, seen + [h], stored, released)
  {
    EasedNext(p, seen, h);
  }

  lemma HistoryStore(p: Params, seen: seq<Header>, stored: seq<Header>, released: seq<Header>, prevBits: nat, h: Header)
    requires HistoryOk(p, seen, stored, released) && Work(p, seen) >= p.minimumWork
             && RedownloadAccepts(p, seen, stored, prevBits, h)
    requires p.bufferSize >= 1 ==> prevBits == Last(p, stored).bits
    ensures HistoryOk(p, seen, stored + [h], released)
  {
    ChainedNext(p, stored, h);
    if p.bufferSize >= 1 { EasedNext(p, stored, h); }
    MatchNext(p, seen, stored, h);
    WorkNext(p, stored, h);
  }

  lemma HistoryRelease(p: Params, seen: seq<Header>, stored: seq<Header>, released: seq<Header>)
    requires HistoryOk(p, seen, stored, released) && |released| < |stored|
    requires |stored| - |released| > p.bufferSize || Work(p, stored) >= p.minimumWork
    ensures HistoryOk(p, seen, stored, released + [stored[|released|]])
  {
  }

  /** What redownload accepts, in terms of the next height and of the work with the header. */
  lemma AcceptsIff(p: Params, seen: seq<Header>, l: seq<Header>, prevBits: nat, h: Header, height: nat, work: nat)
    requires height == p.startHeight + |l| + 1 && work == Work(p, l) + p.proof(h.bits)
    ensures Work(p, l + [h]) == work
    ensures RedownloadAccepts(p, seen, l, prevBits, h) <==>
      && h.prev == p.hash(Last(p, l)) && p.permitted(height, prevBits, h.bits)
      && (work < p.minimumWork && p.commitsAt(height) ==> |l| < |seen| && p.Bit(h) == p.Bit(seen[|l|]))
  {
    WorkNext(p, l, h);
    var m := l + [h];
    assert m[..|l| + 1] == m && m[|l|] == h;
  }

  /** The buffer holds the stored headers from index n on, without the hashes of their predecessors. */
  ghost predicate BufferOk(p: Params, buffer: seq<CompressedHeader>, firstPrevHash: nat, lastHash: nat,
                           stored: seq<Header>, n: nat) {
    && n <= |stored| && |buffer| == |stored| - n
    && (forall i :: 0 <= i < |buffer| ==> buffer[i] == Compress(stored[n + i]))
    && firstPrevHash == p.hash(Last(p, stored[..n])) && lastHash == p.hash(Last(p, stored))
  }

  lemma BufferLast(p: Params, buffer: seq<CompressedHeader>, firstPrevHash: nat, lastHash: nat, stored: seq<Header>,
                   n: nat)
    requires BufferOk(p, buffer, firstPrevHash, lastHash, stored, n) && buffer != []
    ensures buffer[|buffer| - 1].bits == Last(p, stored).bits
  {
  }

  lemma BufferPush(p: Params, buffer: seq<CompressedHeader>, firstPrevHash: nat, lastHash: nat, stored: seq<Header>,
                   n: nat, h: Header)
    requires BufferOk(p, buffer, firstPrevHash, lastHash, stored, n)
    ensures BufferOk(p, buffer + [Compress(h)], firstPrevHash, p.hash(h), stored + [h], n)
  {
    assert (stored + [h])[..n] == stored[..n];
  }

  /** A header that was kept without the hash of its predecessor is restored from it. */
  lemma BufferPop(p: Params, buffer: seq<CompressedHeader>, firstPrevHash: nat, lastHash: nat, stored: seq<Header>,
                  n: nat)
    requires BufferOk(p, buffer, firstPrevHash, lastHash, stored, n) && Chained(p, stored) && buffer != []
    ensures FullHeader(buffer[0], firstPrevHash) == stored[n]
    ensures BufferOk(p, buffer[1..], p.hash(stored[n]), lastHash, stored, n + 1)
  {
    assert Follows(p, stored, n);
    assert stored[..n + 1][n] == stored[n];
  }

  /** The commitments left are those to the headers seen above the ones stored. */
  ghost predicate CommitmentsOk(p: Params, seen: seq<Header>, n: nat, commitments: seq<bool>)
  {
    Commits(p, n) <= |Bits(p, seen)| && commitments == Bits(p, seen)[Commits(p, n)..]
  }

  lemma CommitmentNext(p: Params, seen: seq<Header>, n: nat, commitments: seq<bool>, height: nat)
    requires CommitmentsOk(p, seen, n, commitments) && height == p.startHeight + n + 1
    ensures !p.commitsAt(height) ==> CommitmentsOk(p, seen, n + 1, commitments)
    ensures p.commitsAt(height) ==> (commitments != [] <==> n < |seen|)
    ensures p.commitsAt(height) && n < |seen| ==>
            commitments[0] == p.Bit(seen[n]) && CommitmentsOk(p, seen, n + 1, commitments[1..])
  {
    if p.commitsAt(height) { BitAt(p, seen, n); }
  }

  class HeadersSync {
    const p: Params
    var phase: Phase
    var chainWork: nat
    var commitments: seq<bool>
    var lastHeader: Header
    var height: nat
    var buffer: seq<CompressedHeader>
    var bufferHeight: nat
    var bufferLastHash: nat
    var bufferFirstPrevHash: nat
    var bufferWork: nat
    var processAll: bool

    /** All headers accepted in presync, all stored in redownload, and all returned to the caller. */
    ghost var seen: seq<Header>
    ghost var stored: seq<Header>
    ghost var released: seq<Header>

    ghost predicate History()
      reads this
    {
      HistoryOk(p, seen, stored, released)
    }

    ghost predicate InPresync()
        reads this
    {
      && stored == [] && lastHeader == Last(p, seen) && height == p.startHeight + |seen|
      && chainWork == Work(p, seen) && commitments == Bits(p, seen) && !processAll
    }

    ghost predicate InRedownload()
        reads this
    {
      && Work(p, seen) >= p.minimumWork && BufferOk(p, buffer, bufferFirstPrevHash, bufferLastHash, stored, |released|)
      && bufferHeight == p.startHeight + |stored| && bufferWork == Work(p, stored)
      && (processAll <==> stored != [] && Work(p, stored) >= p.minimumWork)
      && (!processAll ==> CommitmentsOk(p, seen, |stored|, commitments))
    }

    /** Between messages, everything may only have been released if the sync is over. */
    ghost predicate Valid()
      reads this
    {
      && History()
      && (phase == Presync ==> InPresync())
      && (phase == Redownload ==>
            InRedownload() && !processAll && |buffer| <= p.bufferSize
            && (p.bufferSize >= 1 && buffer == [] ==> stored == []))
    }

    constructor (params: Params, period: nat, offset: nat)
      requires period > 0 && offset < period
      ensures p == params.(commitsAt := EveryPeriod(period, offset)) && Valid() && phase == Presync
              && seen == stored == released == []
    {
      p, phase := params.(commitsAt := EveryPeriod(period, offset)), Presync;
      chainWork, commitments, lastHeader, height := params.startWork, [], params.startHeader, params.startHeight;
      buffer, bufferHeight, bufferLastHash, bufferFirstPrevHash, bufferWork, processAll := [], 0, 0, 0, 0, false;
      seen, stored, released := [], [], [];
    }

    method Finalize()
      requires History()
      modifies this
      ensures Valid() && phase == Final && seen == old(seen) && stored == old(stored) && released == old(released)
    {
      commitments, buffer, bufferLastHash, bufferFirstPrevHash, processAll, height := [], [], 0, 0, false, 0;
      lastHeader := Header(0, 0, 0, 0, 0, 0);
      phase := Final;
    }

    // ----- Presync -----

    method ProcessSingleHeader(h: Header) returns (ok: bool)
      requires History() && InPresync()
      modifies this`chainWork, this`commitments, this`lastHeader, this`height, this`seen
      ensures History() && ok == old(PresyncAccepts(p, seen, h))
      ensures ok ==> InPresync() && seen == old(seen) + [h]
    {
      var next := height + 1;
      ok := CheckPresync(h, next);
      if ok {
        HistorySeen(p, seen, stored, released, h);
        WorkNext(p, seen, h);
        chainWork, lastHeader, height := chainWork + p.proof(h.bits), h, next;
        seen := seen + [h];
      }
    }

    method CheckPresync(h: Header, next: nat) returns (ok: bool)
      requires InPresync() && next == p.startHeight + |seen| + 1
      modifies this`commitments
      ensures ok == PresyncAccepts(p, seen, h) && (ok ==> commitments == Bits(p, seen + [h]))
    {
      BitsLength(p, seen);
      BitsNext(p, seen, h, next);
      ok := p.permitted(next, lastHeader.bits, h.bits);
      if ok && p.commitsAt(next) {
        commitments := commitments + [p.Bit(h)];
        ok := |commitments| <= p.maxCommitments;
      }
    }

    method ProcessAll(headers: seq<Header>) returns (ok: bool)
      requires History() && InPresync()
      modifies this`chainWork, this`commitments, this`lastHeader, this`height, this`seen
      ensures History() && ok == PresyncAll(p, old(seen), headers)
      ensures ok ==> InPresync() && seen == old(seen) + headers
    {
      ghost var was := seen;
      for k := 0 to |headers|
        invariant History() && InPresync() && seen == was + headers[..k] && PresyncAll(p, was, headers[..k])
      {
        ok := ProcessSingleHeader(headers[k]);
        if !ok {
          PresyncFails(p, was, headers, k);
          return;
        }
        PresyncGrows(p, was, headers, k);
      }
      assert headers[..|headers|] == headers;
      ok := true;
    }

    method StoreCommitments(headers: seq<Header>) returns (ok: bool)
      requires Valid() && phase == Presync && headers != []
      modifies this
      ensures History() && released == old(released) && stored == []
      ensures ok == (headers[0].prev == p.hash(Last(p, old(seen))) && PresyncAll(p, old(seen), headers))
      ensures ok ==>
        seen == old(seen) + headers && phase == if Work(p, seen) >= p.minimumWork then Redownload else Presync
      ensures ok ==> Valid()
    {
      if headers[0].prev != p.hash(lastHeader) { return false; }
      ok := ProcessAll(headers);
      if ok && chainWork >= p.minimumWork { StartRedownload(); }
    }

    method StartRedownload()
      requires History() && InPresync() && Work(p, seen) >= p.minimumWork
      modifies this`buffer, this`bufferHeight, this`bufferWork, this`bufferFirstPrevHash, this`bufferLastHash,
               this`phase
      ensures Valid() && phase == Redownload
    {
      buffer, bufferHeight, bufferWork := [], p.startHeight, p.startWork;
      bufferFirstPrevHash, bufferLastHash := p.hash(p.startHeader), p.hash(p.startHeader);
      phase := Redownload;
    }

    // ----- Redownload -----

    /** The difficulty that the next header is checked against. */
    ghost function PrevBits(): nat
      reads this
    {
      if buffer == [] then p.startHeader.bits else buffer[|buffer| - 1].bits
    }

    /** Neither the commitments nor the buffer outgrow their limits. */
    lemma Bounded()
      requires Valid() && phase != Final
      ensures |commitments| <= p.maxCommitments && (phase == Redownload ==> |buffer| <= p.bufferSize)
    {
      BitsLength(p, seen);
    }

    /** That is the difficulty of the true predecessor, unless there is no room in the buffer for it. */
    lemma TruePredecessor()
      requires Valid() && phase == Redownload
      ensures PrevBits() == Last(p, stored).bits <==>
        p.bufferSize >= 1 || stored == [] || Last(p, stored).bits == p.startHeader.bits
    {
      assert buffer != [] ==> buffer[|buffer| - 1] == Compress(Last(p, stored));
    }

    method StoreRedownloaded(h: Header) returns (ok: bool)
      requires History() && phase == Redownload && InRedownload()
      requires p.bufferSize >= 1 && buffer == [] ==> stored == []
      modifies this`commitments, this`bufferWork, this`processAll, this`buffer, this`bufferHeight, this`bufferLastHash,
               this`stored
      ensures History() && ok == old(RedownloadAccepts(p, seen, stored, PrevBits(), h))
      ensures ok ==> InRedownload() && buffer != [] && stored == old(stored) + [h] && PrevBits() == h.bits
    {
      var next := bufferHeight + 1;
      var prevBits := if buffer == [] then p.startHeader.bits else buffer[|buffer| - 1].bits;
      if buffer != [] { BufferLast(p, buffer, bufferFirstPrevHash, bufferLastHash, stored, |released|); }
      ok := CheckAndKeep(h, next, prevBits);
    }

    method CheckAndKeep(h: Header, next: nat, prevBits: nat) returns (ok: bool)
      requires History() && InRedownload() && next == p.startHeight + |stored| + 1
      requires p.bufferSize >= 1 ==> prevBits == Last(p, stored).bits
      modifies this`commitments, this`bufferWork, this`processAll, this`buffer, this`bufferHeight, this`bufferLastHash,
               this`stored
      ensures History() && ok == RedownloadAccepts(p, seen, old(stored), prevBits, h)
      ensures ok ==> InRedownload() && buffer != [] && stored == old(stored) + [h] && PrevBits() == h.bits
    {
      ghost var n := |stored| + 1;
      ok := Check(h, next, prevBits);
      if ok {
        Keep(h, next, prevBits);
        assert |stored| == n && (!processAll ==> CommitmentsOk(p, seen, n, commitments));
      }
    }

    /** Does the header connect, at a difficulty that may follow, and with the right commitment? */
    method Check(h: Header, next: nat, prevBits: nat) returns (ok: bool)
      requires InRedownload() && next == p.startHeight + |stored| + 1
      modifies this`commitments, this`bufferWork, this`processAll
      ensures ok == RedownloadAccepts(p, seen, stored, prevBits, h)
      ensures ok ==> bufferWork == Work(p, stored + [h]) && (processAll <==> bufferWork >= p.minimumWork)
      ensures ok && !processAll ==> CommitmentsOk(p, seen, |stored| + 1, commitments)
    {
      var work := bufferWork + p.proof(h.bits);
      AcceptsIff(p, seen, stored, prevBits, h, next, work);
      ok := h.prev == bufferLastHash && p.permitted(next, prevBits, h.bits);
      if ok { ok := CountWork(h, next, work); }
    }

    /** Track the work on the redownloaded chain, and check the commitment unless there is enough of it. */
    method CountWork(h: Header, next: nat, work: nat) returns (ok: bool)
      requires next == p.startHeight + |stored| + 1
      requires !processAll ==> CommitmentsOk(p, seen, |stored|, commitments)
      modifies this`commitments, this`bufferWork, this`processAll
      ensures bufferWork == work && processAll == (old(processAll) || work >= p.minimumWork)
      ensures ok == (!processAll && p.commitsAt(next) ==> |stored| < |seen| && p.Bit(h) == p.Bit(seen[|stored|]))
      ensures ok && !processAll ==> CommitmentsOk(p, seen, |stored| + 1, commitments)
    {
      bufferWork := work;
      if bufferWork >= p.minimumWork { processAll := true; }
      ok := true;
      if !processAll { ok := CheckCommitment(h, next); }
    }

    /** Compare with the commitment of the first download, if there is one for this height. */
    method CheckCommitment(h: Header, next: nat) returns (ok: bool)
      requires next == p.startHeight + |stored| + 1 && CommitmentsOk(p, seen, |stored|, commitments)
      modifies this`commitments
      ensures ok == (p.commitsAt(next) ==> |stored| < |seen| && p.Bit(h) == p.Bit(seen[|stored|]))
      ensures ok ==> CommitmentsOk(p, seen, |stored| + 1, commitments)
    {
      CommitmentNext(p, seen, |stored|, commitments, next);
      if p.commitsAt(next) {
        if commitments == [] { return false; }
        var expected := commitments[0];
        commitments := commitments[1..];
        if p.Bit(h) != expected { return false; }
      }
      ok := true;
    }

    method Keep(h: Header, next: nat, ghost prevBits: nat)
      requires History() && Work(p, seen) >= p.minimumWork && RedownloadAccepts(p, seen, stored, prevBits, h)
      requires BufferOk(p, buffer, bufferFirstPrevHash, bufferLastHash, stored, |released|)
      requires p.bufferSize >= 1 ==> prevBits == Last(p, stored).bits
      modifies this`buffer, this`bufferHeight, this`bufferLastHash, this`stored
      ensures History() && stored == old(stored) + [h] && bufferHeight == next
      ensures BufferOk(p, buffer, bufferFirstPrevHash, bufferLastHash, stored, |released|) && buffer != []
              && PrevBits() == h.bits
    {
      HistoryStore(p, seen, stored, released, prevBits, h);
      BufferPush(p, buffer, bufferFirstPrevHash, bufferLastHash, stored, |released|, h);
      buffer, bufferHeight, bufferLastHash := buffer + [Compress(h)], next, p.hash(h);
      stored := stored + [h];
    }

    /** Take the oldest header from the buffer. */
    method PopOne() returns (full: Header)
      requires History() && InRedownload() && buffer != [] && (|buffer| > p.bufferSize || processAll)
      modifies this`buffer, this`bufferFirstPrevHash, this`released
      ensures History() && InRedownload() && released == old(released) + [full] && |buffer| == old(|buffer|) - 1
    {
      HistoryRelease(p, seen, stored, released);
      BufferPop(p, buffer, bufferFirstPrevHash, bufferLastHash, stored, |released|);
      full := FullHeader(buffer[0], bufferFirstPrevHash);
      buffer, bufferFirstPrevHash := buffer[1..], p.hash(full);
      released := released + [full];
    }

    /** Return the headers that have enough others on top, or all if there is enough work. */
    method PopReady() returns (ready: seq<Header>)
      requires History() && InRedownload()
      modifies this`buffer, this`bufferFirstPrevHash, this`released
      ensures History() && InRedownload() && released == old(released) + ready
      ensures |buffer| == if processAll then 0 else if old(|buffer|) > p.bufferSize then p.bufferSize else old(|buffer|)
      ensures stored != [] ==> ReleasedAll(p, stored, old(|released|), released)
    {
      ready := [];
      while |buffer| > p.bufferSize || (|buffer| > 0 && processAll)
        invariant History() && InRedownload() && released == old(released) + ready && |buffer| <= old(|buffer|)
        invariant processAll || |buffer| >= p.bufferSize || |buffer| == old(|buffer|)
        decreases |buffer|
      {
        var full := PopOne();
        ready := ready + [full];
      }
    }

    method StoreAll(headers: seq<Header>) returns (ok: bool)
      requires Valid() && phase == Redownload
      modifies this`commitments, this`bufferWork, this`processAll, this`buffer, this`bufferHeight, this`bufferLastHash,
               this`stored
      ensures History() && ok == old(RedownloadAll(p, seen, stored, PrevBits(), headers))
      ensures ok ==> InRedownload() && stored == old(stored) + headers && (headers != [] ==> buffer != [])
    {
      ghost var was, prevBits := stored, PrevBits();
      for k := 0 to |headers|
        invariant History() && InRedownload() && stored == was + headers[..k]
                  && (p.bufferSize >= 1 && buffer == [] ==> stored == [])
        invariant PrevBits() == BitsBefore(prevBits, headers, k) && (k > 0 ==> buffer != [])
        invariant RedownloadAll(p, seen, was, prevBits, headers[..k])
      {
        ok := StoreRedownloaded(headers[k]);
        if !ok {
          RedownloadFails(p, seen, was, prevBits, headers, k);
          return;
        }
        RedownloadGrows(p, seen, was, prevBits, headers, k);
      }
      assert headers[..|headers|] == headers;
      ok := true;
    }

    // ----- Messages -----

    method ProcessPresync(headers: seq<Header>, full: bool) returns (ret: ProcessingResult)
      requires Valid() && phase == Presync && headers != []
      modifies this
      ensures History() && released == old(released) && ret.headers == []
              && (ret.success && ret.requestMore ==> Valid())
      ensures stored == []
      ensures ret.success == (headers[0].prev == p.hash(Last(p, old(seen))) && PresyncAll(p, old(seen), headers))
      ensures ret.success ==> seen == old(seen) + headers
      ensures ret.success && ret.requestMore ==> phase == if Work(p, seen) >= p.minimumWork then Redownload else Presync
      ensures ret.requestMore == (ret.success && (full || Work(p, old(seen) + headers) >= p.minimumWork))
    {
      var ok := StoreCommitments(headers);
      ret := ProcessingResult([], ok, ok && (full || phase == Redownload));
    }

    /** Return what can be accepted, and whether there is more to ask for. */
    method Release(full: bool) returns (ready: seq<Header>, more: bool)
      requires History() && InRedownload() && phase == Redownload && buffer != []
      modifies this`buffer, this`bufferFirstPrevHash, this`released
      ensures History() && released == old(released) + ready && ReleasedAll(p, stored, old(|released|), released)
      ensures more == (full && Work(p, stored) < p.minimumWork) && (more ==> Valid())
    {
      ready := PopReady();
      more := !(buffer == [] && processAll) && full;
    }

    method ProcessRedownload(headers: seq<Header>, full: bool) returns (ret: ProcessingResult)
      requires Valid() && phase == Redownload && headers != []
      modifies this`commitments, this`bufferWork, this`processAll, this`buffer, this`bufferHeight, this`bufferLastHash,
               this`stored, this`bufferFirstPrevHash, this`released
      ensures History() && released == old(released) + ret.headers && seen == old(seen)
              && (ret.success && ret.requestMore ==> Valid())
      ensures ret.success == RedownloadAll(p, old(seen), old(stored), old(PrevBits()), headers) && phase == Redownload
      ensures ret.success ==> stored == old(stored) + headers && ReleasedAll(p, stored, old(|released|), released)
      ensures !ret.success ==> ret.headers == []
      ensures ret.requestMore == (ret.success && full && Work(p, old(stored) + headers) < p.minimumWork)
    {
      var ok := StoreAll(headers);
      ret := ProcessingResult([], ok, false);
      if ok {
        var ready, more := Release(full);
        ret := ProcessingResult(ready, true, more);
      }
    }

    /** One message of headers. Whatever it holds, all that was ever returned is a prefix of what was
        redownloaded, and a sync that does not ask for more is over. */
    method ProcessNextHeaders(headers: seq<Header>, full: bool) returns (ret: ProcessingResult)
      requires Valid()
      modifies this
      ensures Valid() && released == old(released) + ret.headers
      ensures headers == [] || old(phase) == Final ==>
        ret == ProcessingResult([], false, false) && phase == old(phase) && seen == old(seen) && stored == old(stored)
      ensures headers != [] && old(phase) != Final ==> (phase == Final <==> !(ret.success && ret.requestMore))
      ensures headers != [] && old(phase) == Presync ==>
        && ret.success == (headers[0].prev == p.hash(Last(p, old(seen))) && PresyncAll(p, old(seen), headers))
        && ret.requestMore == (ret.success && (full || Work(p, old(seen) + headers) >= p.minimumWork))
        && (phase == Redownload <==> ret.success && Work(p, old(seen) + headers) >= p.minimumWork)
        && (ret.success ==> seen == old(seen) + headers) && stored == []
      ensures headers != [] && old(phase) == Redownload ==>
        && ret.success == RedownloadAll(p, old(seen), old(stored), old(PrevBits()), headers)
        && ret.requestMore == (ret.success && full && Work(p, old(stored) + headers) < p.minimumWork)
        && (ret.success ==> stored == old(stored) + headers && ReleasedAll(p, stored, old(|released|), released))
        && seen == old(seen) && (!ret.success ==> ret.headers == [])
    {
      ret := ProcessingResult([], false, false);
      if headers == [] || phase == Final { return; }
      if phase == Presync {
        ret := ProcessPresync(headers, full);
      } else {
        ret := ProcessRedownload(headers, full);
      }
      if !(ret.success && ret.requestMore) { Finalize(); }
    }
  }

  // ----- Syncing without a buffer -----

  /** No buffer, and a rule that lets the difficulty change only from 0. */
  const UNBUFFERED := Params(Header(0, 0, 0, 0, 0, 0), 0, 0, 3, EveryPeriod(10, 9), 0, 0, (h: Header) => h.nonce,
                             (_: nat) => false, (bits: nat) => if bits == 0 then 3 else 1,
                             (_: nat, prev: nat, _: nat) => prev == 0)
  const FIRST := Header(0, 0, 0, 0, 0, 1)
  const SECOND := Header(0, 0, 0, 0, 1, 1)
  const THIRD := Header(0, 1, 0, 0, 1, 2)

  lemma UnbufferedWork(p: Params)
    requires p == UNBUFFERED
    ensures Work(p, [] + [FIRST]) == 3 && Work(p, [] + [SECOND]) == 1 && Work(p, [SECOND] + [THIRD]) == 2
  {
    WorkNext(p, [], FIRST);
    WorkNext(p, [], SECOND);
    WorkNext(p, [SECOND], THIRD);
    assert [] + [SECOND] == [SECOND];
  }

  lemma UnbufferedAccepts(p: Params)
    requires p == UNBUFFERED
    ensures PresyncAccepts(p, [], FIRST)
    ensures RedownloadAccepts(p, [FIRST], [], 0, SECOND) && RedownloadAccepts(p, [FIRST], [SECOND], 0, THIRD)
    ensures !AllEased(p, [SECOND] + [THIRD])
  {
    assert !p.commitsAt(1) && !p.commitsAt(2);
    assert !Eased(p, [SECOND] + [THIRD], 1);
  }

  lemma UnbufferedMessages(p: Params)
    requires p == UNBUFFERED
    ensures PresyncAll(p, [], [FIRST])
    ensures RedownloadAll(p, [FIRST], [], 0, [SECOND]) && RedownloadAll(p, [FIRST], [SECOND], 0, [THIRD])
  {
    UnbufferedAccepts(p);
    assert [FIRST][..0] == [] && [SECOND][..0] == [] && [THIRD][..0] == [] && [SECOND] + [] == [SECOND];
  }

  /**
   * Without a buffer every header is released at once, and the next one is checked against the difficulty of the start:
   * two headers of difficulty 1 in a row are accepted and released although the rule forbids the second.
   */
  method StaleDifficulty() returns (sync: HeadersSync)
    ensures sync.Valid() && sync.phase == Redownload && sync.p.bufferSize == 0
    ensures sync.PrevBits() != Last(sync.p, sync.stored).bits
    ensures sync.released == sync.stored && !AllEased(sync.p, sync.released)
  {
    sync := StartUnbuffered();
    ghost var p := UNBUFFERED;
    UnbufferedWork(p);
    UnbufferedAccepts(p);
    UnbufferedMessages(p);
    assert [] + [SECOND] == [SECOND];
    var ret := sync.ProcessNextHeaders([SECOND], true);
    assert sync.stored == [SECOND] && sync.PrevBits() == 0;
    ret := sync.ProcessNextHeaders([THIRD], true);
    assert sync.stored == [SECOND] + [THIRD];
  }

  method StartUnbuffered() returns (sync: HeadersSync)
    ensures fresh(sync) && sync.Valid() && sync.p == UNBUFFERED && sync.phase == Redownload
    ensures sync.seen == [FIRST] && sync.stored == [] && sync.PrevBits() == 0
  {
    sync := new HeadersSync(UNBUFFERED, 10, 9);
    UnbufferedWork(UNBUFFERED);
    UnbufferedMessages(UNBUFFERED);
    var ret := sync.ProcessNextHeaders([FIRST], true);
    assert sync.seen == [] + [FIRST] == [FIRST];
  }
}
