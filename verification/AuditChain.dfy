/**
 The audit hash chain of src/security/merkle.rs over an abstract hash. An entry's
 hash covers its fields joined with '|'; each entry names the hash before it.
 */
module AuditChains {
  import opened Strings

  type Hash = string -> string

  datatype Entry = Entry(
    sequence: nat,
    timestamp: string,
    eventType: string,
    payload: string,
    prevHash: string,
    hash: string)

  datatype ChainError = EmptyChain | BrokenChain(atSequence: nat) | InvalidHash(atSequence: nat)

  function Zeros(n: nat): (s: string)
    ensures |s| == n && forall i :: 0 <= i < n ==> s[i] == '0'
  {
    if n == 0 then "" else "0" + Zeros(n - 1)
  }

  const GENESIS_PREV_HASH: string := Zeros(64)

  // ----- the hashed text -----

  function Decimal(n: nat): (s: string)
    ensures s != "" && AllDigits(s)
  {
    (if n < 10 then "" else Decimal(n / 10)) + ['0' + (n % 10) as char]
  }

  /** A number is written in decimal digits, without leading zeros. */
  lemma {:induction false} DecimalRead(n: nat)
    ensures ReadDecimal(Decimal(n)) == n && (Decimal(n)[0] == '0' ==> Decimal(n) == "0")
  {
    var front, last := if n < 10 then "" else Decimal(n / 10), '0' + (n % 10) as char;
    ReadOneMore(front, last);
    ReadOneMore("", '0');
    assert "" + ['0'] == "0";
    if n >= 10 {
      DecimalRead(n / 10);
      assert Decimal(n)[0] == front[0];
    }
  }

  function Preimage(e: Entry): string {
    Decimal(e.sequence) + "|" + e.timestamp + "|" + e.eventType + "|" + e.payload + "|" + e.prevHash
  }

  function EntryHash(h: Hash, e: Entry): string {
    h(Preimage(e))
  }

  predicate BarFree(s: string) {
    '|' !in s
  }

  /** Every field but the payload is free of the delimiter. */
  predicate Delimited(e: Entry) {
    BarFree(e.timestamp) && BarFree(e.eventType) && BarFree(e.prevHash)
  }

  predicate Plain(e: Entry) {
    Delimited(e) && BarFree(e.payload)
  }

  lemma DecimalInjective(m: nat, n: nat)
    requires Decimal(m) == Decimal(n)
    ensures m == n
  {
    DecimalRead(m);
    DecimalRead(n);
  }

  lemma DecimalBarFree(n: nat)
    ensures BarFree(Decimal(n))
  {
  }

  ghost function Bars(s: string): nat {
    multiset(s)['|']
  }

  lemma BarsFree(s: string)
    ensures Bars(s) == 0 <==> BarFree(s)
  {
  }

  lemma BarsOfJoin(a: string, b: string)
    ensures Bars(a + "|" + b) == Bars(a) + 1 + Bars(b)
  {
  }

  lemma LongerHasMoreBars(a: string, b: string, x: string, y: string)
    requires a + "|" + b == x + "|" + y && |a| < |x|
    ensures Bars(a) < Bars(x)
  {
    var s := x + "|" + y;
    var rest := x[|a| + 1..];
    assert x == s[..|x|] && a == s[..|a|] && s[|a|] == '|';
    assert x == a + "|" + rest;
    BarsOfJoin(a, rest);
  }

  lemma SplitAt(a: string, b: string, x: string, y: string)
    requires |a| == |x| && a + "|" + b == x + "|" + y
    ensures a == x && b == y
  {
    var s := a + "|" + b;
    assert s[..|a|] == a && s[|a| + 1..] == b;
    assert s[..|a|] == x && s[|a| + 1..] == y;
  }

  /** A delimiter is known by the number of delimiters before it. */
  lemma SplitByBars(a: string, b: string, x: string, y: string)
    requires a + "|" + b == x + "|" + y && Bars(a) == Bars(x)
    ensures a == x && b == y
  {
    hide Bars;
    if |a| < |x| {
      LongerHasMoreBars(a, b, x, y);
    } else if |x| < |a| {
      LongerHasMoreBars(x, y, a, b);
    } else {
      SplitAt(a, b, x, y);
    }
  }

  ghost predicate SameFields(d: Entry, e: Entry) {
    d == e.(hash := d.hash)
  }

  lemma SameFieldsSymmetric(d: Entry, e: Entry)
    ensures SameFields(d, e) <==> SameFields(e, d)
  {
  }

  ghost predicate SameBars(d: Entry, e: Entry) {
    && Bars(d.timestamp) == Bars(e.timestamp)
    && Bars(d.eventType) == Bars(e.eventType)
    && Bars(d.payload) == Bars(e.payload)
  }

  /** The hashed text decides every field as soon as it is known how many delimiters each field holds. */
  lemma PreimageDeterminesFields(d: Entry, e: Entry)
    requires Preimage(d) == Preimage(e)
    ensures SameFields(d, e) <==> SameBars(d, e)
  {
    hide Decimal, Bars;
    if SameBars(d, e) {
      DecimalBarFree(d.sequence);
      DecimalBarFree(e.sequence);
      BarsFree(Decimal(d.sequence));
      BarsFree(Decimal(e.sequence));
      hide BarFree;
      var d3, e3 := d.payload + "|" + d.prevHash, e.payload + "|" + e.prevHash;
      var d2, e2 := d.eventType + "|" + d3, e.eventType + "|" + e3;
      var d1, e1 := d.timestamp + "|" + d2, e.timestamp + "|" + e2;
      assert Preimage(d) == Decimal(d.sequence) + "|" + d1;
      assert Preimage(e) == Decimal(e.sequence) + "|" + e1;
      SplitByBars(Decimal(d.sequence), d1, Decimal(e.sequence), e1);
      DecimalInjective(d.sequence, e.sequence);
      SplitByBars(d.timestamp, d2, e.timestamp, e2);
      SplitByBars(d.eventType, d3, e.eventType, e3);
      SplitByBars(d.payload, d.prevHash, e.payload, e.prevHash);
    }
  }

  lemma PreimageBars(e: Entry)
    ensures Bars(Preimage(e)) == 4 + Bars(e.timestamp) + Bars(e.eventType) + Bars(e.payload) + Bars(e.prevHash)
  {
    hide Bars;
    var number := Decimal(e.sequence);
    DecimalBarFree(e.sequence);
    BarsFree(number);
    BarsOfJoin(number, e.timestamp);
    BarsOfJoin(number + "|" + e.timestamp, e.eventType);
    BarsOfJoin(number + "|" + e.timestamp + "|" + e.eventType, e.payload);
    BarsOfJoin(number + "|" + e.timestamp + "|" + e.eventType + "|" + e.payload, e.prevHash);
  }

  lemma BarsFreeForAll()
    ensures forall s: string :: Bars(s) == 0 <==> BarFree(s)
  {
    forall s: string
      ensures Bars(s) == 0 <==> BarFree(s)
    {
      BarsFree(s);
    }
  }

  /** Four delimiters are the field boundaries, so a text with no more of them has one reading. */
  lemma PlainTextHasOneReading(d: Entry, e: Entry)
    requires Plain(d) && Preimage(d) == Preimage(e)
    ensures SameFields(d, e)
  {
    hide Decimal, Preimage, BarFree, Bars;
    PreimageBars(d);
    PreimageBars(e);
    BarsFreeForAll();
    PreimageDeterminesFields(d, e);
  }

  lemma DelimitedHaveSameBars(d: Entry, e: Entry)
    requires Delimited(d) && Delimited(e) && Preimage(d) == Preimage(e)
    ensures SameBars(d, e)
  {
    hide Decimal, Preimage, BarFree, Bars;
    PreimageBars(d);
    PreimageBars(e);
    BarsFreeForAll();
  }

  lemma BarSplits(s: string) returns (a: string, b: string)
    requires !BarFree(s)
    ensures s == a + "|" + b && |a| < |s|
  {
    var i :| 0 <= i < |s| && s[i] == '|';
    a, b := s[..i], s[i + 1..];
  }

  /** Where two neighbouring fields are cut does not show in the joined text. */
  lemma SameCut(front: string, x: string, y: string, u: string, v: string)
    requires x + "|" + y == u + "|" + v
    ensures front + "|" + x + "|" + y == front + "|" + u + "|" + v
  {
    assert front + "|" + x + "|" + y == front + "|" + (x + "|" + y);
    assert front + "|" + u + "|" + v == front + "|" + (u + "|" + v);
  }

  lemma Recut(e: Entry, m: Entry)
    requires m == e.(timestamp := m.timestamp, eventType := m.eventType, payload := m.payload, prevHash := m.prevHash)
    requires || (m.timestamp + "|" + m.eventType == e.timestamp + "|" + e.eventType
                 && m.payload == e.payload && m.prevHash == e.prevHash)
             || (m.eventType + "|" + m.payload == e.eventType + "|" + e.payload
                 && m.timestamp == e.timestamp && m.prevHash == e.prevHash)
             || (m.payload + "|" + m.prevHash == e.payload + "|" + e.prevHash
                 && m.timestamp == e.timestamp && m.eventType == e.eventType)
    ensures Preimage(m) == Preimage(e)
  {
    hide Decimal;
    var number := Decimal(e.sequence);
    if m.payload == e.payload && m.prevHash == e.prevHash
       && m.timestamp + "|" + m.eventType == e.timestamp + "|" + e.eventType
    {
      SameCut(number, m.timestamp, m.eventType, e.timestamp, e.eventType);
    } else if m.eventType + "|" + m.payload == e.eventType + "|" + e.payload && m.prevHash == e.prevHash {
      SameCut(number + "|" + e.timestamp, m.eventType, m.payload, e.eventType, e.payload);
    } else {
      SameCut(number + "|" + e.timestamp + "|" + e.eventType, m.payload, m.prevHash, e.payload, e.prevHash);
    }
  }

  /** A delimiter inside a field can be read as the boundary to the next one. */
  lemma DelimiterIsAmbiguous(e: Entry) returns (m: Entry)
    requires !Plain(e)
    ensures Preimage(m) == Preimage(e) && !SameFields(m, e) && m.hash == e.hash
    ensures BarFree(e.prevHash) ==> m.prevHash == e.prevHash
  {
    hide Decimal, BarFree, Preimage;
    if !BarFree(e.timestamp) {
      var a, b := BarSplits(e.timestamp);
      m := e.(timestamp := a, eventType := b + "|" + e.eventType);
      assert m.timestamp + "|" + m.eventType == e.timestamp + "|" + e.eventType;
    } else if !BarFree(e.eventType) {
      var a, b := BarSplits(e.eventType);
      m := e.(eventType := a, payload := b + "|" + e.payload);
      assert m.eventType + "|" + m.payload == e.eventType + "|" + e.payload;
    } else if !BarFree(e.payload) {
      var a, b := BarSplits(e.payload);
      m := e.(eventType := e.eventType + "|" + a, payload := b);
      assert m.eventType + "|" + m.payload == e.eventType + "|" + e.payload;
    } else {
      var a, b := BarSplits(e.prevHash);
      m := e.(payload := e.payload + "|" + a, prevHash := b);
      assert m.payload + "|" + m.prevHash == e.payload + "|" + e.prevHash;
    }
    Recut(e, m);
  }

  /** Exactly the entries without any delimiter are told apart from all others by their hashed text. */
  lemma OneReadingIff(d: Entry)
    ensures (forall e :: Preimage(d) == Preimage(e) ==> SameFields(d, e)) <==> Plain(d)
  {
    hide Preimage, SameFields, Plain;
    if Plain(d) {
      forall e | Preimage(d) == Preimage(e)
        ensures SameFields(d, e)
      {
        PlainTextHasOneReading(d, e);
      }
    } else {
      var m := DelimiterIsAmbiguous(d);
      SameFieldsSymmetric(d, m);
    }
  }

  // ----- append and verify -----

  /** What one `append` records, the clock giving the timestamp. */
  datatype Event = Event(eventType: string, payload: string, timestamp: string)

  function NextEntry(h: Hash, lastHash: string, nextSequence: nat, ev: Event): Entry {
    var e := Entry(nextSequence, ev.timestamp, ev.eventType, ev.payload, lastHash, "");
    e.(hash := EntryHash(h, e))
  }

  /** The entries appended from a chain state on. */
  function Appended(h: Hash, lastHash: string, nextSequence: nat, evs: seq<Event>): (es: seq<Entry>)
    ensures |es| == |evs|
    decreases |evs|
  {
    if evs == [] then []
    else
      var e := NextEntry(h, lastHash, nextSequence, evs[0]);
      [e] + Appended(h, e.hash, nextSequence + 1, evs[1..])
  }

  /** All entries of a chain that starts empty. */
  function History(h: Hash, evs: seq<Event>): (es: seq<Entry>)
    ensures |es| == |evs|
  {
    Appended(h, GENESIS_PREV_HASH, 0, evs)
  }

  class AuditChain {
    const h: Hash
    var lastHash: string
    var nextSequence: nat

    constructor (h: Hash)
      ensures this.h == h && lastHash == GENESIS_PREV_HASH && nextSequence == 0
    {
      this.h := h;
      lastHash := GENESIS_PREV_HASH;
      nextSequence := 0;
    }

    /** Whatever is appended later, this entry comes first. */
    method Append(eventType: string, payload: string, timestamp: string) returns (e: Entry)
      modifies this
      ensures lastHash == e.hash && nextSequence == old(nextSequence) + 1
      ensures forall evs :: Appended(h, old(lastHash), old(nextSequence), [Event(eventType, payload, timestamp)] + evs)
                         == [e] + Appended(h, lastHash, nextSequence, evs)
    {
      var sequence := nextSequence;
      hide EntryHash;
      var prevHash := lastHash;
      e := Entry(sequence, timestamp, eventType, payload, prevHash, "");
      e := e.(hash := EntryHash(h, e));
      lastHash := e.hash;
      nextSequence := nextSequence + 1;
      forall evs
        ensures Appended(h, old(lastHash), old(nextSequence), [Event(eventType, payload, timestamp)] + evs)
             == [e] + Appended(h, lastHash, nextSequence, evs)
      {
        assert ([Event(eventType, payload, timestamp)] + evs)[1..] == evs;
      }
    }
  }

  predicate HashValid(h: Hash, es: seq<Entry>, i: nat)
    requires i < |es|
  {
    es[i].hash == EntryHash(h, es[i])
  }

  predicate Linked(es: seq<Entry>, i: nat)
    requires i < |es|
  {
    i == 0 || es[i].prevHash == es[i - 1].hash
  }

  /** What `verify` accepts. */
  predicate Verifies(h: Hash, es: seq<Entry>) {
    es != [] && forall i :: 0 <= i < |es| ==> HashValid(h, es, i) && Linked(es, i)
  }

  /** The first entry that is wrong decides, its hash before its link. */
  method Verify(h: Hash, es: seq<Entry>) returns (r: Result<(), ChainError>)
    ensures r.Ok? <==> Verifies(h, es)
    ensures r.Err? && r.error.EmptyChain? <==> es == []
    ensures r.Err? && es != [] ==>
              exists i :: 0 <= i < |es|
                && (forall j :: 0 <= j < i ==> HashValid(h, es, j) && Linked(es, j))
                && !(HashValid(h, es, i) && Linked(es, i))
                && r.error == (if !HashValid(h, es, i) then InvalidHash(es[i].sequence)
                               else BrokenChain(es[i].sequence))
  {
    if es == [] {
      return Err(EmptyChain);
    }
    for i := 0 to |es|
      invariant forall j :: 0 <= j < i ==> HashValid(h, es, j) && Linked(es, j)
    {
      var expectedHash := EntryHash(h, es[i]);
      if es[i].hash != expectedHash {
        assert !HashValid(h, es, i);
        return Err(InvalidHash(es[i].sequence));
      }
      if i > 0 && es[i].prevHash != es[i - 1].hash {
        assert HashValid(h, es, i) && !Linked(es, i);
        return Err(BrokenChain(es[i].sequence));
      }
    }
    return Ok(());
  }

  // ----- honest chains verify -----

  lemma {:induction false} AppendedIsLinked(h: Hash, lastHash: string, n: nat, evs: seq<Event>, i: nat)
    requires i < |evs|
    ensures var es := Appended(h, lastHash, n, evs);
            && HashValid(h, es, i)
            && es[i].hash == h(Decimal(es[i].sequence) + "|" + es[i].timestamp + "|" + es[i].eventType
                               + "|" + es[i].payload + "|" + es[i].prevHash)
            && es[i].prevHash == (if i == 0 then lastHash else es[i - 1].hash)
            && es[i].sequence == n + i
            && es[i].timestamp == evs[i].timestamp && es[i].eventType == evs[i].eventType
            && es[i].payload == evs[i].payload
    decreases i
  {
    hide Decimal;
    var e := NextEntry(h, lastHash, n, evs[0]);
    assert EntryHash(h, e) == EntryHash(h, e.(hash := ""));
    if i > 0 {
      AppendedIsLinked(h, e.hash, n + 1, evs[1..], i - 1);
    }
  }

  /** Every non-empty stretch of an honest chain verifies. */
  lemma HistoryVerifies(h: Hash, evs: seq<Event>, lo: nat, hi: nat)
    requires lo < hi <= |evs|
    ensures Verifies(h, History(h, evs)[lo..hi])
  {
    var es := History(h, evs);
    forall i | 0 <= i < hi - lo
      ensures HashValid(h, es[lo..hi], i) && Linked(es[lo..hi], i)
    {
      AppendedIsLinked(h, GENESIS_PREV_HASH, 0, evs, lo + i);
    }
  }

  // ----- which tampered chains do -----

  /** Among the given entries the hash has no collision, no delimiter and never the genesis value. */
  ghost predicate SoundOn(h: Hash, entries: set<Entry>) {
    && (forall d, e :: d in entries && e in entries && EntryHash(h, d) == EntryHash(h, e) ==>
          Preimage(d) == Preimage(e))
    && (forall e :: e in entries ==> BarFree(EntryHash(h, e)) && EntryHash(h, e) != GENESIS_PREV_HASH)
  }

  ghost function Entries(es: seq<Entry>): set<Entry> {
    set e | e in es
  }

  lemma SoundOnParts(h: Hash, a: set<Entry>, b: set<Entry>)
    requires SoundOn(h, a + b)
    ensures SoundOn(h, a) && SoundOn(h, b)
  {
    hide EntryHash, Preimage;
  }

  ghost predicate SameHashedText(d: Entry, e: Entry) {
    Preimage(d) == Preimage(e) && d.hash == e.hash
  }

  lemma SameHashSameText(h: Hash, all: set<Entry>, d: Entry, e: Entry)
    requires SoundOn(h, all) && d in all && e in all
    requires d.hash == EntryHash(h, d) && e.hash == EntryHash(h, e) && d.hash == e.hash
    ensures SameHashedText(d, e)
  {
    hide Preimage;
  }

  lemma SameTextSamePrevHash(d: Entry, e: Entry)
    requires BarFree(d.prevHash) && BarFree(e.prevHash) && Preimage(d) == Preimage(e)
    ensures d.prevHash == e.prevHash
  {
    hide Decimal, Bars;
    var dFront := Decimal(d.sequence) + "|" + d.timestamp + "|" + d.eventType + "|" + d.payload;
    var eFront := Decimal(e.sequence) + "|" + e.timestamp + "|" + e.eventType + "|" + e.payload;
    BarsFree(d.prevHash);
    BarsFree(e.prevHash);
    BarsOfJoin(dFront, d.prevHash);
    BarsOfJoin(eFront, e.prevHash);
    SplitByBars(dFront, d.prevHash, eFront, e.prevHash);
  }

  lemma PrevHashBarFree(h: Hash, es: seq<Entry>, i: nat)
    requires Verifies(h, es) && SoundOn(h, Entries(es)) && i < |es|
    ensures i > 0 || es[0].prevHash == GENESIS_PREV_HASH ==> BarFree(es[i].prevHash)
  {
    hide EntryHash, Preimage;
    if i > 0 {
      assert Linked(es, i) && HashValid(h, es, i - 1);
      assert es[i - 1] in Entries(es);
    }
  }

  lemma NeverGenesis(h: Hash, all: set<Entry>, e: Entry)
    requires SoundOn(h, all) && e in all
    ensures EntryHash(h, e) != GENESIS_PREV_HASH
  {
  }

  /**
   Whatever they hold, two verifying sequences with a common last hash have the
   same hashed texts, counted from the end, until the genesis entry of the first.
   */
  lemma {:induction false} AgreeBackwards(h: Hash, hist: seq<Entry>, es: seq<Entry>, k: nat)
    requires Verifies(h, hist) && hist[0].prevHash == GENESIS_PREV_HASH && Verifies(h, es)
    requires SoundOn(h, Entries(hist) + Entries(es))
    requires es[|es| - 1].hash == hist[|hist| - 1].hash
    requires k < |es|
    ensures k < |hist| && SameHashedText(es[|es| - 1 - k], hist[|hist| - 1 - k])
  {
    hide EntryHash, Preimage, BarFree, SoundOn;
    var all := Entries(hist) + Entries(es);
    var i := |es| - 1 - k;
    assert HashValid(h, es, i) && es[i] in all;
    if k > 0 {
      AgreeBackwards(h, hist, es, k - 1);
      var j := |hist| - k;
      SoundOnParts(h, Entries(hist), Entries(es));
      PrevHashBarFree(h, es, i + 1);
      PrevHashBarFree(h, hist, j);
      SameTextSamePrevHash(es[i + 1], hist[j]);
      assert Linked(es, i + 1) && Linked(hist, j);
      NeverGenesis(h, all, es[i]);
    }
    var j := |hist| - 1 - k;
    assert HashValid(h, hist, j) && hist[j] in all;
    SameHashSameText(h, all, es[i], hist[j]);
  }

  lemma HistoryStarts(h: Hash, evs: seq<Event>)
    requires evs != []
    ensures Verifies(h, History(h, evs))
    ensures History(h, evs)[0].sequence == 0 && History(h, evs)[0].prevHash == GENESIS_PREV_HASH
    ensures |GENESIS_PREV_HASH| == 64 && forall i :: 0 <= i < 64 ==> GENESIS_PREV_HASH[i] == '0'
  {
    hide EntryHash, Appended;
    HistoryVerifies(h, evs, 0, |evs|);
    assert History(h, evs)[0..|evs|] == History(h, evs);
    AppendedIsLinked(h, GENESIS_PREV_HASH, 0, evs, 0);
  }

  /** What a holder of the last hash presents as the chain's end, under the assumptions on the hash. */
  ghost predicate Passes(h: Hash, evs: seq<Event>, es: seq<Entry>)
    requires evs != []
  {
    && Verifies(h, es) && es[|es| - 1].hash == History(h, evs)[|evs| - 1].hash
    && SoundOn(h, Entries(History(h, evs)) + Entries(es))
  }

  ghost predicate IsSuffix<T>(s: seq<T>, of: seq<T>) {
    |s| <= |of| && s == of[|of| - |s|..]
  }

  /**
   What verification always shows: a sequence that verifies and ends in the last
   hash of an honest chain has the hashed texts of a suffix of that chain.
   */
  lemma VerifiedHasTextsOfSuffix(h: Hash, evs: seq<Event>, es: seq<Entry>)
    requires evs != [] && Passes(h, evs, es)
    ensures |es| <= |evs|
    ensures forall i :: 0 <= i < |es| ==> SameHashedText(es[i], History(h, evs)[|evs| - |es| + i])
  {
    hide EntryHash, Appended, SameHashedText;
    HistoryStarts(h, evs);
    AgreeBackwards(h, History(h, evs), es, |es| - 1);
    forall i | 0 <= i < |es|
      ensures SameHashedText(es[i], History(h, evs)[|evs| - |es| + i])
    {
      AgreeBackwards(h, History(h, evs), es, |es| - 1 - i);
    }
  }

  /** Nothing but the payload holds a delimiter in what is recorded. */
  predicate DelimitedEvents(evs: seq<Event>) {
    forall i :: 0 <= i < |evs| ==> BarFree(evs[i].timestamp) && BarFree(evs[i].eventType)
  }

  /** The same of a sequence someone presents, its first previous hash included. */
  predicate DelimitedClaim(es: seq<Entry>) {
    && (forall i :: 0 <= i < |es| ==> BarFree(es[i].timestamp) && BarFree(es[i].eventType))
    && (es != [] ==> BarFree(es[0].prevHash))
  }

  lemma HistoryDelimited(h: Hash, evs: seq<Event>, i: nat)
    requires i < |evs| && SoundOn(h, Entries(History(h, evs)))
    ensures BarFree(History(h, evs)[i].prevHash)
    ensures DelimitedEvents(evs) ==> Delimited(History(h, evs)[i])
  {
    hide EntryHash, Appended;
    HistoryStarts(h, evs);
    PrevHashBarFree(h, History(h, evs), i);
    AppendedIsLinked(h, GENESIS_PREV_HASH, 0, evs, i);
  }

  lemma DelimitedAgree(h: Hash, evs: seq<Event>, es: seq<Entry>, i: nat)
    requires evs != [] && Passes(h, evs, es) && DelimitedEvents(evs) && DelimitedClaim(es)
    requires |es| <= |evs| && i < |es| && SameHashedText(es[i], History(h, evs)[|evs| - |es| + i])
    ensures SameBars(es[i], History(h, evs)[|evs| - |es| + i])
  {
    hide EntryHash, Appended, DelimitedEvents, Preimage, BarFree, SameBars;
    SoundOnParts(h, Entries(History(h, evs)), Entries(es));
    HistoryDelimited(h, evs, |evs| - |es| + i);
    PrevHashBarFree(h, es, i);
    DelimitedHaveSameBars(es[i], History(h, evs)[|evs| - |es| + i]);
  }

  /**
   A sequence that passes is a suffix exactly if its fields hold as many
   delimiters as the recorded ones. Delimiters in payloads alone are no obstacle.
   */
  lemma VerifiedIsSuffix(h: Hash, evs: seq<Event>, es: seq<Entry>)
    requires evs != [] && Passes(h, evs, es)
    ensures |es| <= |evs|
    ensures IsSuffix(es, History(h, evs))
       <==> forall i :: 0 <= i < |es| ==> SameBars(es[i], History(h, evs)[|evs| - |es| + i])
    ensures DelimitedEvents(evs) && DelimitedClaim(es) ==> IsSuffix(es, History(h, evs))
  {
    hide EntryHash, Appended, DelimitedEvents, DelimitedClaim, SoundOn, Preimage, SameBars;
    var hist, off := History(h, evs), |evs| - |es|;
    VerifiedHasTextsOfSuffix(h, evs, es);
    forall i | 0 <= i < |es|
      ensures es[i] == hist[off + i] <==> SameBars(es[i], hist[off + i])
      ensures DelimitedEvents(evs) && DelimitedClaim(es) ==> SameBars(es[i], hist[off + i])
    {
      PreimageDeterminesFields(es[i], hist[off + i]);
      if DelimitedEvents(evs) && DelimitedClaim(es) {
        DelimitedAgree(h, evs, es, i);
      }
    }
    if IsSuffix(es, hist) {
      forall i | 0 <= i < |es|
        ensures es[i] == hist[off + i]
      {
        assert hist[off..][i] == hist[off + i];
      }
    }
  }

  // ----- exactly when a chain is tamper-evident -----

  /** No recorded field holds a delimiter. */
  predicate PlainEvents(evs: seq<Event>) {
    DelimitedEvents(evs) && forall i :: 0 <= i < |evs| ==> BarFree(evs[i].payload)
  }

  lemma HistoryPlainIff(h: Hash, evs: seq<Event>)
    requires SoundOn(h, Entries(History(h, evs)))
    ensures PlainEvents(evs) <==> forall i :: 0 <= i < |evs| ==> Plain(History(h, evs)[i])
  {
    hide EntryHash, Appended, BarFree;
    forall i | 0 <= i < |evs|
      ensures Plain(History(h, evs)[i])
         <==> BarFree(evs[i].timestamp) && BarFree(evs[i].eventType) && BarFree(evs[i].payload)
    {
      HistoryDelimited(h, evs, i);
      AppendedIsLinked(h, GENESIS_PREV_HASH, 0, evs, i);
    }
  }

  /** An entry that keeps hash, hashed text and link can stand in for the one it was made from. */
  lemma ReplacedVerifies(h: Hash, es: seq<Entry>, i: nat, m: Entry)
    requires i < |es| && Verifies(h, es)
    requires SameHashedText(m, es[i]) && m.prevHash == es[i].prevHash
    ensures Verifies(h, es[i := m])
  {
    hide Preimage;
    var changed := es[i := m];
    forall j | 0 <= j < |es|
      ensures HashValid(h, changed, j) && Linked(changed, j)
    {
      assert HashValid(h, es, j) && Linked(es, j);
    }
  }

  /** Soundness speaks of the hashed texts alone. */
  lemma SameTextsAreSound(h: Hash, a: set<Entry>, b: set<Entry>, original: Entry -> Entry)
    requires SoundOn(h, a)
    requires forall e :: e in b ==> original(e) in a && Preimage(original(e)) == Preimage(e)
    ensures SoundOn(h, b)
  {
    hide Preimage, BarFree;
    forall d, e | d in b && e in b && EntryHash(h, d) == EntryHash(h, e)
      ensures Preimage(d) == Preimage(e)
    {
      assert EntryHash(h, original(d)) == EntryHash(h, original(e));
    }
    forall e | e in b
      ensures BarFree(EntryHash(h, e)) && EntryHash(h, e) != GENESIS_PREV_HASH
    {
      assert EntryHash(h, original(e)) == EntryHash(h, e);
    }
  }

  lemma ReplacedIsSound(h: Hash, es: seq<Entry>, i: nat, m: Entry)
    requires i < |es| && SoundOn(h, Entries(es)) && SameHashedText(m, es[i])
    ensures SoundOn(h, Entries(es) + Entries(es[i := m]))
  {
    hide SoundOn, Preimage;
    var was := es[i];
    SameTextsAreSound(h, Entries(es), Entries(es) + Entries(es[i := m]), e => if e == m then was else e);
  }

  /** A recorded delimiter lets one entry be altered so that the sequence still passes. */
  lemma TamperedPasses(h: Hash, evs: seq<Event>) returns (es: seq<Entry>)
    requires evs != [] && !PlainEvents(evs) && SoundOn(h, Entries(History(h, evs)))
    ensures Passes(h, evs, es) && |es| == |evs| && !IsSuffix(es, History(h, evs))
  {
    hide EntryHash, Appended, Preimage, BarFree, Plain;
    var hist := History(h, evs);
    HistoryPlainIff(h, evs);
    var i :| 0 <= i < |evs| && !Plain(hist[i]);
    var m := DelimiterIsAmbiguous(hist[i]);
    HistoryDelimited(h, evs, i);
    HistoryStarts(h, evs);
    es := hist[i := m];
    ReplacedVerifies(h, hist, i, m);
    ReplacedIsSound(h, hist, i, m);
    assert es[i] != hist[i];
  }

  lemma PlainHistoryIsTamperEvident(h: Hash, evs: seq<Event>, es: seq<Entry>)
    requires evs != [] && PlainEvents(evs) && Passes(h, evs, es)
    ensures IsSuffix(es, History(h, evs))
  {
    hide EntryHash, Appended, PlainEvents, Preimage, Plain;
    var hist := History(h, evs);
    VerifiedHasTextsOfSuffix(h, evs, es);
    SoundOnParts(h, Entries(hist), Entries(es));
    HistoryPlainIff(h, evs);
    forall i | 0 <= i < |es|
      ensures es[i] == hist[|evs| - |es| + i]
    {
      PlainTextHasOneReading(hist[|evs| - |es| + i], es[i]);
    }
  }

  /**
   Tamper evidence, exactly: only suffixes of an honest chain verify and end in
   its last hash if and only if no recorded timestamp, event type or payload
   holds the delimiter.
   */
  lemma TamperEvidentIff(h: Hash, evs: seq<Event>)
    requires evs != [] && SoundOn(h, Entries(History(h, evs)))
    ensures (forall es :: Passes(h, evs, es) ==> IsSuffix(es, History(h, evs))) <==> PlainEvents(evs)
  {
    hide EntryHash, History, SoundOn, PlainEvents, IsSuffix, Passes;
    if PlainEvents(evs) {
      forall es | Passes(h, evs, es)
        ensures IsSuffix(es, History(h, evs))
      {
        PlainHistoryIsTamperEvident(h, evs, es);
      }
    } else {
      var es := TamperedPasses(h, evs);
    }
  }
}
