/** Reading wallet accounts back from the chain: vectors with checked lengths, and a tail that older
    programs wrote in a shorter layout. */
module Accounts {
  import opened Base
  import Decimal

  datatype ReadError = UnexpectedEnd | InvalidDiscriminant | WrongAccount

  /** What a reader takes off the front of the bytes, and what it leaves. */
  type Taken<+T> = Result<(T, seq<byte>), ReadError>

  // ----- Readers -----

  function TakeBytes(b: seq<byte>, n: nat): Taken<seq<byte>> {
    if |b| < n then Err(UnexpectedEnd) else Ok((b[..n], b[n..]))
  }

  function TakeWord(b: seq<byte>, n: nat): Taken<nat> {
    var (s, rest) :- TakeBytes(b, n);
    Ok((FromLE(s), rest))
  }

  /** `read_vec_u8`. */
  function TakeBlob(b: seq<byte>): Taken<seq<byte>> {
    var (n, rest) :- TakeWord(b, 4);
    TakeBytes(rest, n)
  }

  /** `read_bool`. */
  function TakeBool(b: seq<byte>): Taken<bool> {
    var (flag, rest) :- TakeWord(b, 1);
    var _ :- Need(flag <= 1, InvalidDiscriminant);
    Ok((flag == 1, rest))
  }

  /** Whether the discriminants inside an entry of one kind are known. */
  type EntryRule = seq<byte> -> bool

  function TakeEach(b: seq<byte>, count: nat, size: nat, rule: EntryRule): Taken<seq<seq<byte>>> {
    if count == 0 then Ok(([], b)) else
    var (entry, rest) :- TakeBytes(b, size);
    var _ :- Need(rule(entry), InvalidDiscriminant);
    var (more, end) :- TakeEach(rest, count - 1, size, rule);
    Ok(([entry] + more, end))
  }

  /** `read_vec_entries`: the whole size is checked before any entry is read. */
  function TakeEntries(b: seq<byte>, size: nat, rule: EntryRule): Taken<seq<seq<byte>>> {
    var (count, rest) :- TakeWord(b, 4);
    var _ :- Need(count * size <= |rest|, UnexpectedEnd);
    TakeEach(rest, count, size, rule)
  }

  /** Once the size is checked, an entry can only be refused for its contents. */
  lemma {:induction false} BackedEntries(b: seq<byte>, count: nat, size: nat, rule: EntryRule)
    requires count * size <= |b|
    ensures TakeEach(b, count, size, rule) != Err(UnexpectedEnd)
  {
    if count > 0 {
      MulMonotone(1, count, size);
      assert count * size == (count - 1) * size + size;
      BackedEntries(b[size..], count - 1, size, rule);
    }
  }

  ghost predicate Agrees<T>(spec: Taken<T>, r: Result<T, ReadError>, rest: seq<byte>) {
    if spec.Ok? then r == Ok(spec.value.0) && rest == spec.value.1 else r == Err(spec.error)
  }

  /** The account bytes and the offset every reader advances. */
  class Cursor {
    const data: seq<byte>
    var offset: nat

    constructor (bytes: seq<byte>, at: nat)
      requires at <= |bytes|
      ensures Valid() && data == bytes && offset == at
    {
      data, offset := bytes, at;
    }

    predicate Valid()
      reads this
    {
      offset <= |data|
    }

    ghost function Rest(): seq<byte>
      reads this
      requires Valid()
    {
      data[offset..]
    }

    method ReadBytes(n: nat) returns (r: Result<seq<byte>, ReadError>)
      requires Valid()
      modifies this
      ensures Valid() && Agrees(TakeBytes(old(Rest()), n), r, Rest())
    {
      if offset + n > |data| {
        return Err(UnexpectedEnd);
      }
      assert Rest()[..n] == data[offset..offset + n] && Rest()[n..] == data[offset + n..];
      r := Ok(data[offset..offset + n]);
      offset := offset + n;
    }

    method ReadWord(n: nat) returns (r: Result<nat, ReadError>)
      requires Valid()
      modifies this
      ensures Valid() && Agrees(TakeWord(old(Rest()), n), r, Rest())
    {
      var s :- ReadBytes(n);
      return Ok(FromLE(s));
    }

    method ReadBool() returns (r: Result<bool, ReadError>)
      requires Valid()
      modifies this
      ensures Valid() && Agrees(TakeBool(old(Rest())), r, Rest())
    {
      hide FromLE;
      var flag :- ReadWord(1);
      if flag > 1 {
        return Err(InvalidDiscriminant);
      }
      return Ok(flag == 1);
    }

    method ReadBlob() returns (r: Result<seq<byte>, ReadError>)
      requires Valid()
      modifies this
      ensures Valid() && Agrees(TakeBlob(old(Rest())), r, Rest())
    {
      hide TakeBytes;
      var n :- ReadWord(4);
      r := ReadBytes(n);
    }

    method ReadEntries(size: nat, rule: EntryRule) returns (r: Result<seq<seq<byte>>, ReadError>)
      requires Valid()
      modifies this
      ensures Valid() && Agrees(TakeEntries(old(Rest()), size, rule), r, Rest())
    {
      hide TakeBytes, TakeWord, TakeEach, Along;
      var count :- ReadWord(4);
      if offset + count * size > |data| {
        return Err(UnexpectedEnd);
      }
      var entries: seq<seq<byte>> := [];
      ghost var start := Rest();
      StartAlong(start, count, size, rule);
      for i := 0 to count
        invariant Valid()
        invariant Along(start, count, size, rule, entries, Rest(), count - i)
      {
        ghost var rest := Rest();
        StepAlong(start, count, size, rule, entries, rest, count - i);
        var entry :- ReadBytes(size);
        if !rule(entry) {
          return Err(InvalidDiscriminant);
        }
        entries := entries + [entry];
      }
      EndAlong(start, count, size, rule, entries, Rest());
      return Ok(entries);
    }
  }

  /** Where a loop over entries stands: some are read, the rest is still to be taken. */
  ghost predicate Along(start: seq<byte>, count: nat, size: nat, rule: EntryRule,
                        entries: seq<seq<byte>>, rest: seq<byte>, left: nat) {
    TakeEach(start, count, size, rule)
    == match TakeEach(rest, left, size, rule)
       case Err(e) => Err(e)
       case Ok((more, end)) => Ok((entries + more, end))
  }

  lemma StartAlong(start: seq<byte>, count: nat, size: nat, rule: EntryRule)
    ensures Along(start, count, size, rule, [], start, count)
  {
    var t := TakeEach(start, count, size, rule);
    if t.Ok? {
      assert [] + t.value.0 == t.value.0;
    }
  }

  lemma EndAlong(start: seq<byte>, count: nat, size: nat, rule: EntryRule, entries: seq<seq<byte>>, rest: seq<byte>)
    requires Along(start, count, size, rule, entries, rest, 0)
    ensures TakeEach(start, count, size, rule) == Ok((entries, rest))
  {
    assert entries + [] == entries;
  }

  lemma StepAlong(start: seq<byte>, count: nat, size: nat, rule: EntryRule,
                  entries: seq<seq<byte>>, rest: seq<byte>, left: nat)
    requires left > 0 && Along(start, count, size, rule, entries, rest, left)
    ensures var t := TakeBytes(rest, size);
      && (t.Err? ==> TakeEach(start, count, size, rule) == Err(t.error))
      && (t.Ok? ==>
            if rule(t.value.0) then Along(start, count, size, rule, entries + [t.value.0], t.value.1, left - 1)
            else TakeEach(start, count, size, rule) == Err(InvalidDiscriminant))
  {
    var t := TakeBytes(rest, size);
    if t.Ok? && rule(t.value.0) {
      var u := TakeEach(t.value.1, left - 1, size, rule);
      if u.Ok? {
        assert entries + ([t.value.0] + u.value.0) == entries + [t.value.0] + u.value.0;
      }
    }
  }

  // ----- Writing the layouts -----

  function Blob(v: seq<byte>, tail: seq<byte>): seq<byte> {
    LE(|v|, 4) + (v + tail)
  }

  function Join(es: seq<seq<byte>>, tail: seq<byte>): seq<byte> {
    if es == [] then tail else es[0] + Join(es[1..], tail)
  }

  function Entries(es: seq<seq<byte>>, tail: seq<byte>): seq<byte> {
    LE(|es|, 4) + Join(es, tail)
  }

  predicate EntriesValid(es: seq<seq<byte>>, size: nat, rule: EntryRule) {
    |es| < 0x1_0000_0000 && forall i :: 0 <= i < |es| ==> |es[i]| == size && rule(es[i])
  }

  lemma BytesBack(s: seq<byte>, tail: seq<byte>)
    ensures TakeBytes(s + tail, |s|) == Ok((s, tail))
  {
    assert (s + tail)[..|s|] == s && (s + tail)[|s|..] == tail;
  }

  lemma WordBack(v: nat, n: nat, tail: seq<byte>)
    requires v < Pow(256, n)
    ensures TakeWord(LE(v, n) + tail, n) == Ok((v, tail))
  {
    hide LE, FromLE, TakeBytes, Pow;
    LERoundTrip(v, n);
    BytesBack(LE(v, n), tail);
  }

  lemma BlobBack(v: seq<byte>, tail: seq<byte>)
    requires |v| < 0x1_0000_0000
    ensures TakeBlob(Blob(v, tail)) == Ok((v, tail))
  {
    hide LE, TakeWord, TakeBytes, Pow;
    WordSizes();
    WordBack(|v|, 4, v + tail);
    BytesBack(v, tail);
  }

  lemma {:induction false} EachBack(es: seq<seq<byte>>, size: nat, rule: EntryRule, tail: seq<byte>)
    requires forall i :: 0 <= i < |es| ==> |es[i]| == size && rule(es[i])
    ensures TakeEach(Join(es, tail), |es|, size, rule) == Ok((es, tail))
    ensures |Join(es, tail)| == |es| * size + |tail|
  {
    hide TakeBytes;
    if es != [] {
      EachBack(es[1..], size, rule, tail);
      BytesBack(es[0], Join(es[1..], tail));
      assert [es[0]] + es[1..] == es;
      assert |es| * size == (|es| - 1) * size + size;
    }
  }

  lemma EntriesBack(es: seq<seq<byte>>, size: nat, rule: EntryRule, tail: seq<byte>)
    requires EntriesValid(es, size, rule)
    ensures TakeEntries(Entries(es, tail), size, rule) == Ok((es, tail))
  {
    hide LE, TakeWord, TakeEach, Pow, Join;
    WordSizes();
    WordBack(|es|, 4, Join(es, tail));
    EachBack(es, size, rule, tail);
  }

  lemma WordSplit(b: seq<byte>, n: nat)
    requires TakeWord(b, n).Ok?
    ensures var (v, rest) := TakeWord(b, n).value; v < Pow(256, n) && b == LE(v, n) + rest
  {
    hide FromLE, LE, Pow;
    FromLEBound(b[..n]);
    FromLERoundTrip(b[..n]);
  }

  lemma BlobSplit(b: seq<byte>)
    requires TakeBlob(b).Ok?
    ensures var (v, rest) := TakeBlob(b).value; |v| < 0x1_0000_0000 && b == Blob(v, rest)
  {
    hide LE, TakeWord, Pow;
    WordSizes();
    WordSplit(b, 4);
    var (n, rest) := TakeWord(b, 4).value;
    assert rest == rest[..n] + rest[n..];
  }

  lemma {:induction false} EachSplit(b: seq<byte>, count: nat, size: nat, rule: EntryRule)
    requires TakeEach(b, count, size, rule).Ok?
    ensures var (es, rest) := TakeEach(b, count, size, rule).value;
      && |es| == count && b == Join(es, rest)
      && forall i :: 0 <= i < |es| ==> |es[i]| == size && rule(es[i])
  {
    if count > 0 {
      EachSplit(b[size..], count - 1, size, rule);
      var (es, rest) := TakeEach(b, count, size, rule).value;
      assert es[1..] == TakeEach(b[size..], count - 1, size, rule).value.0;
      assert b == b[..size] + b[size..];
    }
  }

  lemma EntriesSplit(b: seq<byte>, size: nat, rule: EntryRule)
    requires TakeEntries(b, size, rule).Ok?
    ensures var (es, rest) := TakeEntries(b, size, rule).value; EntriesValid(es, size, rule) && b == Entries(es, rest)
  {
    hide LE, TakeWord, Pow, Join, TakeEach;
    WordSizes();
    WordSplit(b, 4);
    var (count, rest) := TakeWord(b, 4).value;
    EachSplit(rest, count, size, rule);
  }

  // ----- The intent account -----

  datatype Lists = Lists(
    proposers: seq<seq<byte>>,
    approvers: seq<seq<byte>>,
    params: seq<seq<byte>>,
    accounts: seq<seq<byte>>,
    instructions: seq<seq<byte>>,
    segments: seq<seq<byte>>,
    seeds: seq<seq<byte>>)

  /** An intent account. `identity` holds the wallet, bump, index, type and chain bytes; `numbers` the
      thresholds, timelock, template ranges and proposal count; entries keep their bytes. */
  datatype IntentAccount = IntentAccount(
    identity: seq<byte>,
    approved: bool,
    numbers: seq<byte>,
    lists: Lists,
    ciphertexts: seq<byte>,
    pool: seq<byte>)

  predicate AnyEntry(e: seq<byte>) { true }

  predicate ParamRule(e: seq<byte>) { |e| == 14 && e[0] <= 10 && e[5] <= 2 }

  predicate AccountRule(e: seq<byte>) { |e| == 7 && e[0] <= 1 && e[1] <= 1 && e[2] <= 4 }

  predicate SegmentRule(e: seq<byte>) { |e| == 5 && e[0] <= 1 }

  predicate SeedRule(e: seq<byte>) { |e| == 5 && e[0] <= 2 }

  predicate ListsValid(l: Lists) {
    && EntriesValid(l.proposers, 32, AnyEntry)
    && EntriesValid(l.approvers, 32, AnyEntry)
    && EntriesValid(l.params, 14, ParamRule)
    && EntriesValid(l.accounts, 7, AccountRule)
    && EntriesValid(l.instructions, 9, AnyEntry)
    && EntriesValid(l.segments, 5, SegmentRule)
    && EntriesValid(l.seeds, 5, SeedRule)
  }

  function ListsBytes(l: Lists, tail: seq<byte>): seq<byte> {
    Entries(l.proposers, Entries(l.approvers, Entries(l.params, Entries(l.accounts,
      Entries(l.instructions, Entries(l.segments, Entries(l.seeds, tail)))))))
  }

  function TakeLists(b: seq<byte>): Taken<Lists> {
    var (proposers, b1) :- TakeEntries(b, 32, AnyEntry);
    var (approvers, b2) :- TakeEntries(b1, 32, AnyEntry);
    var (params, b3) :- TakeEntries(b2, 14, ParamRule);
    var (accounts, b4) :- TakeEntries(b3, 7, AccountRule);
    var (instructions, b5) :- TakeEntries(b4, 9, AnyEntry);
    var (segments, b6) :- TakeEntries(b5, 5, SegmentRule);
    var (seeds, b7) :- TakeEntries(b6, 5, SeedRule);
    Ok((Lists(proposers, approvers, params, accounts, instructions, segments, seeds), b7))
  }

  lemma ListsBack(l: Lists, tail: seq<byte>)
    requires ListsValid(l)
    ensures TakeLists(ListsBytes(l, tail)) == Ok((l, tail))
  {
    hide Entries, TakeEntries, EntriesValid;
    var b6 := Entries(l.seeds, tail);
    var b5 := Entries(l.segments, b6);
    var b4 := Entries(l.instructions, b5);
    var b3 := Entries(l.accounts, b4);
    var b2 := Entries(l.params, b3);
    var b1 := Entries(l.approvers, b2);
    EntriesBack(l.proposers, 32, AnyEntry, b1);
    EntriesBack(l.approvers, 32, AnyEntry, b2);
    EntriesBack(l.params, 14, ParamRule, b3);
    EntriesBack(l.accounts, 7, AccountRule, b4);
    EntriesBack(l.instructions, 9, AnyEntry, b5);
    EntriesBack(l.segments, 5, SegmentRule, b6);
    EntriesBack(l.seeds, 5, SeedRule, tail);
  }

  lemma ListsSplit(b: seq<byte>)
    requires TakeLists(b).Ok?
    ensures var (l, rest) := TakeLists(b).value; ListsValid(l) && b == ListsBytes(l, rest)
  {
    hide Entries, TakeEntries, EntriesValid;
    EntriesSplit(b, 32, AnyEntry);
    var b1 := TakeEntries(b, 32, AnyEntry).value.1;
    EntriesSplit(b1, 32, AnyEntry);
    var b2 := TakeEntries(b1, 32, AnyEntry).value.1;
    EntriesSplit(b2, 14, ParamRule);
    var b3 := TakeEntries(b2, 14, ParamRule).value.1;
    EntriesSplit(b3, 7, AccountRule);
    var b4 := TakeEntries(b3, 7, AccountRule).value.1;
    EntriesSplit(b4, 9, AnyEntry);
    var b5 := TakeEntries(b4, 9, AnyEntry).value.1;
    EntriesSplit(b5, 5, SegmentRule);
    var b6 := TakeEntries(b5, 5, SegmentRule).value.1;
    EntriesSplit(b6, 5, SeedRule);
  }

  /** Everything before the tail, with an empty tail. */
  function TakeFront(b: seq<byte>): Taken<IntentAccount> {
    var _ :- Need(b != [] && b[0] == 2, WrongAccount);
    var (identity, b1) :- TakeBytes(b[1..], 36);
    var (approved, b2) :- TakeBool(b1);
    var (numbers, b3) :- TakeBytes(b2, 16);
    var (lists, rest) :- TakeLists(b3);
    Ok((IntentAccount(identity, approved, numbers, lists, [], []), rest))
  }

  /** The tail as older programs wrote it: the pool alone, or nothing. */
  function LegacyTail(b: seq<byte>): Result<(seq<byte>, seq<byte>), ReadError> {
    if b == [] then Ok(([], [])) else
    var (pool, _) :- TakeBlob(b);
    Ok(([], pool))
  }

  /** The current layout if it reads, and the old one if it does not. */
  function IntentTail(b: seq<byte>): Result<(seq<byte>, seq<byte>), ReadError> {
    match TakeBlob(b)
    case Err(_) => LegacyTail(b)
    case Ok((ciphertexts, rest)) =>
      match TakeBlob(rest)
      case Err(_) => LegacyTail(b)
      case Ok((pool, _)) => Ok((ciphertexts, pool))
  }

  function ParseIntent(b: seq<byte>): Result<IntentAccount, ReadError> {
    var (front, rest) :- TakeFront(b);
    var (ciphertexts, pool) :- IntentTail(rest);
    Ok(front.(ciphertexts := ciphertexts, pool := pool))
  }

  /** `parse_intent`: the seven lists in order, then the tail from a saved offset. */
  method ReadIntent(data: seq<byte>) returns (r: Result<IntentAccount, ReadError>)
    ensures r == ParseIntent(data)
  {
    hide TakeBytes, TakeBool, TakeEntries, TakeBlob, FromLE, AnyEntry, ParamRule, AccountRule, SegmentRule, SeedRule;
    if data == [] || data[0] != 2 {
      return Err(WrongAccount);
    }
    var c := new Cursor(data, 1);
    var identity :- c.ReadBytes(36);
    var approved :- c.ReadBool();
    var numbers :- c.ReadBytes(16);
    var lists :- ReadLists(c);
    var tail :- ReadIntentTail(c);
    return Ok(IntentAccount(identity, approved, numbers, lists, tail.0, tail.1));
  }

  method ReadLists(c: Cursor) returns (r: Result<Lists, ReadError>)
    requires c.Valid()
    modifies c
    ensures c.Valid() && Agrees(TakeLists(old(c.Rest())), r, c.Rest())
  {
    hide TakeEntries;
    var proposers :- c.ReadEntries(32, AnyEntry);
    var approvers :- c.ReadEntries(32, AnyEntry);
    var params :- c.ReadEntries(14, ParamRule);
    var accounts :- c.ReadEntries(7, AccountRule);
    var instructions :- c.ReadEntries(9, AnyEntry);
    var segments :- c.ReadEntries(5, SegmentRule);
    var seeds :- c.ReadEntries(5, SeedRule);
    return Ok(Lists(proposers, approvers, params, accounts, instructions, segments, seeds));
  }

  method ReadIntentTail(c: Cursor) returns (r: Result<(seq<byte>, seq<byte>), ReadError>)
    requires c.Valid()
    modifies c
    ensures r == IntentTail(old(c.Rest()))
  {
    hide TakeBlob;
    var tailOffset := c.offset;
    var ciphertexts := c.ReadBlob();
    if ciphertexts.Ok? {
      var current := c.ReadBlob();
      if current.Ok? {
        return Ok((ciphertexts.value, current.value));
      }
    }
    c.offset := tailOffset;
    if tailOffset == |c.data| {
      return Ok(([], []));
    }
    var pool :- c.ReadBlob();
    return Ok(([], pool));
  }

  // ----- Which accounts decode to what -----

  predicate FrontValid(a: IntentAccount) {
    |a.identity| == 36 && |a.numbers| == 16 && ListsValid(a.lists)
  }

  predicate TailValid(a: IntentAccount) {
    |a.ciphertexts| < 0x1_0000_0000 && |a.pool| < 0x1_0000_0000
  }

  function FrontBytes(a: IntentAccount, tail: seq<byte>): seq<byte> {
    [2] + (a.identity + ([if a.approved then 1 else 0] + (a.numbers + ListsBytes(a.lists, tail))))
  }

  /** The layout of the current program, with whatever follows it in the account. */
  function CurrentBytes(a: IntentAccount, extra: seq<byte>): seq<byte> {
    FrontBytes(a, Blob(a.ciphertexts, Blob(a.pool, extra)))
  }

  /** The layout of programs that had no ciphertexts. */
  function LegacyBytes(a: IntentAccount, extra: seq<byte>): seq<byte> {
    FrontBytes(a, Blob(a.pool, extra))
  }

  lemma BoolBack(flag: bool, tail: seq<byte>)
    ensures TakeBool([if flag then 1 else 0] + tail) == Ok((flag, tail))
  {
    hide TakeBytes;
    var v := if flag then 1 else 0;
    BytesBack([v], tail);
    assert FromLE([v]) == v;
  }

  lemma BoolSplit(b: seq<byte>)
    requires TakeBool(b).Ok?
    ensures b == [if TakeBool(b).value.0 then 1 else 0] + TakeBool(b).value.1
  {
    assert FromLE(b[..1]) == b[0];
  }

  lemma FrontBack(a: IntentAccount, tail: seq<byte>)
    requires FrontValid(a)
    ensures TakeFront(FrontBytes(a, tail)) == Ok((a.(ciphertexts := [], pool := []), tail))
  {
    hide TakeBytes, TakeBool, TakeLists, ListsBytes, ListsValid;
    var b3 := ListsBytes(a.lists, tail);
    var b2 := a.numbers + b3;
    var b1 := [if a.approved then 1 else 0] + b2;
    assert FrontBytes(a, tail)[1..] == a.identity + b1;
    BytesBack(a.identity, b1);
    BoolBack(a.approved, b2);
    BytesBack(a.numbers, b3);
    ListsBack(a.lists, tail);
  }

  lemma FrontSplit(b: seq<byte>)
    requires TakeFront(b).Ok?
    ensures var (a, rest) := TakeFront(b).value;
      FrontValid(a) && b == FrontBytes(a, rest) && a.ciphertexts == [] && a.pool == []
  {
    hide TakeBool, TakeLists, ListsBytes, ListsValid;
    var b1 := b[1..][36..];
    BoolSplit(b1);
    var b2 := TakeBool(b1).value.1;
    ListsSplit(b2[16..]);
    assert b2 == b2[..16] + b2[16..];
    assert b[1..] == b[1..][..36] + b1;
    assert b == [b[0]] + b[1..];
  }

  /** Every account in the current layout decodes to itself, whatever follows it. */
  lemma CurrentDecodes(a: IntentAccount, extra: seq<byte>)
    requires FrontValid(a) && TailValid(a)
    ensures ParseIntent(CurrentBytes(a, extra)) == Ok(a)
  {
    hide FrontBytes, TakeFront, Blob, TakeBlob, FrontValid;
    FrontBack(a, Blob(a.ciphertexts, Blob(a.pool, extra)));
    BlobBack(a.ciphertexts, Blob(a.pool, extra));
    BlobBack(a.pool, extra);
  }

  /** An account in the old layout with bytes behind it decodes to itself, except when those bytes
      read as a blob: then the pool is taken for the ciphertexts and the blob for the pool. */
  lemma LegacyDecodesIff(a: IntentAccount, extra: seq<byte>)
    requires FrontValid(a) && TailValid(a) && a.ciphertexts == []
    ensures ParseIntent(LegacyBytes(a, extra)) == Ok(a)
            <==> |extra| < 4 || FromLE(extra[..4]) > |extra| - 4 || (a.pool == [] && FromLE(extra[..4]) == 0)
    ensures !(|extra| < 4 || FromLE(extra[..4]) > |extra| - 4)
            ==> ParseIntent(LegacyBytes(a, extra))
                == Ok(a.(ciphertexts := a.pool, pool := extra[4..4 + FromLE(extra[..4])]))
  {
    hide FrontBytes, TakeFront, TakeBlob, FrontValid, FromLE;
    var b := Blob(a.pool, extra);
    FrontBack(a, b);
    BlobBack(a.pool, extra);
    TrailingBlob(extra);
    NoBlob();
    if TakeBlob(extra).Ok? {
      assert |TakeBlob(extra).value.0| == FromLE(extra[..4]);
    }
  }

  lemma NoBlob()
    ensures TakeBlob([]).Err?
  {
  }

  lemma TrailingBlob(extra: seq<byte>)
    ensures TakeBlob(extra)
         == if |extra| < 4 || FromLE(extra[..4]) > |extra| - 4 then Err(UnexpectedEnd)
            else Ok((extra[4..4 + FromLE(extra[..4])], extra[4 + FromLE(extra[..4])..]))
  {
    hide FromLE;
    if |extra| >= 4 {
      var n := FromLE(extra[..4]);
      if n <= |extra| - 4 {
        assert extra[4..][..n] == extra[4..4 + n] && extra[4..][n..] == extra[4 + n..];
      }
    }
  }

  /** Old accounts that end with their pool, and those that end before it, always decode. */
  lemma ExactLegacyDecodes(a: IntentAccount)
    requires FrontValid(a) && TailValid(a) && a.ciphertexts == []
    ensures ParseIntent(LegacyBytes(a, [])) == Ok(a)
    ensures a.pool == [] ==> ParseIntent(FrontBytes(a, [])) == Ok(a)
  {
    hide FrontBytes, TakeFront, FrontValid, FromLE, LegacyBytes;
    LegacyDecodesIff(a, []);
    FrontBack(a, []);
  }

  /** Nothing else decodes: an account that parses was written in one of the three layouts. */
  lemma ParsedHasLayout(b: seq<byte>)
    requires ParseIntent(b).Ok?
    ensures var a := ParseIntent(b).value;
      && FrontValid(a) && TailValid(a)
      && (|| (exists extra :: b == CurrentBytes(a, extra))
          || (a.ciphertexts == [] && exists extra :: b == LegacyBytes(a, extra))
          || (a.ciphertexts == [] && a.pool == [] && b == FrontBytes(a, [])))
  {
    hide TakeFront, TakeBlob, Blob, ListsBytes, ListsValid;
    FrontSplit(b);
    NoBlob();
    var a, rest := ParseIntent(b).value, TakeFront(b).value.1;
    if TakeBlob(rest).Ok? {
      BlobSplit(rest);
      var next := TakeBlob(rest).value.1;
      if TakeBlob(next).Ok? {
        BlobSplit(next);
        assert b == CurrentBytes(a, TakeBlob(next).value.1);
      } else {
        assert b == LegacyBytes(a, next);
      }
    }
  }

  /** A concrete old account read wrongly: four zero bytes behind a pool turn it into ciphertexts. */
  lemma LegacyMisread(a: IntentAccount)
    requires FrontValid(a) && TailValid(a) && a.ciphertexts == [] && a.pool == [0x74, 0x6D, 0x70, 0x6C]
    ensures ParseIntent(LegacyBytes(a, [0, 0, 0, 0])) == Ok(a.(ciphertexts := a.pool, pool := []))
  {
    hide FrontValid, LegacyBytes, ParseIntent;
    var extra: seq<byte> := [0, 0, 0, 0];
    assert extra[..4] == extra;
    ZeroWord();
    LegacyDecodesIff(a, extra);
  }

  lemma ZeroWord()
    ensures FromLE([0, 0, 0, 0]) == 0
  {
    assert FromLE([0]) == 0;
    assert [0, 0][1..] == [0];
    assert FromLE([0, 0]) == 0;
    assert [0, 0, 0][1..] == [0, 0];
    assert FromLE([0, 0, 0]) == 0;
    assert [0, 0, 0, 0][1..] == [0, 0, 0];
  }

  // ----- The typed proposal -----

  /** A typed proposal; `fixed` holds its fixed-width fields in order. */
  datatype TypedProposal = TypedProposal(
    fixed: seq<byte>,
    actionId: seq<byte>,
    nonce: seq<byte>,
    policy: seq<byte>,
    clearText: seq<byte>)

  const TYPED_FIXED: nat := 263

  function TypedTail(b: seq<byte>): Result<(seq<byte>, seq<byte>), ReadError> {
    match TakeBlob(b)
    case Err(e) => Err(e)
    case Ok((policy, rest)) =>
      match TakeBlob(rest)
      case Ok((clearText, _)) => Ok((policy, clearText))
      case Err(_) => Ok(([], policy))
  }

  function ParseTyped(b: seq<byte>): Result<TypedProposal, ReadError> {
    var _ :- Need(b != [] && b[0] == 6, WrongAccount);
    var (fixed, b1) :- TakeBytes(b[1..], TYPED_FIXED);
    var (actionId, b2) :- TakeBlob(b1);
    var (nonce, b3) :- TakeBlob(b2);
    var (policy, clearText) :- TypedTail(b3);
    Ok(TypedProposal(fixed, actionId, nonce, policy, clearText))
  }

  /** `parse_typed_proposal`: on either failure the offset goes back and one blob is read. */
  method ReadTyped(data: seq<byte>) returns (r: Result<TypedProposal, ReadError>)
    ensures r == ParseTyped(data)
  {
    hide TakeBytes, TakeBlob;
    if data == [] || data[0] != 6 {
      return Err(WrongAccount);
    }
    var c := new Cursor(data, 1);
    var fixed :- c.ReadBytes(TYPED_FIXED);
    var actionId :- c.ReadBlob();
    var nonce :- c.ReadBlob();
    var beforePolicy := c.offset;
    var policy := c.ReadBlob();
    if policy.Ok? {
      var clear := c.ReadBlob();
      if clear.Ok? {
        return Ok(TypedProposal(fixed, actionId, nonce, policy.value, clear.value));
      }
    }
    c.offset := beforePolicy;
    var clearText :- c.ReadBlob();
    return Ok(TypedProposal(fixed, actionId, nonce, [], clearText));
  }

  predicate TypedValid(p: TypedProposal) {
    && |p.fixed| == TYPED_FIXED && |p.actionId| < 0x1_0000_0000 && |p.nonce| < 0x1_0000_0000
    && |p.policy| < 0x1_0000_0000 && |p.clearText| < 0x1_0000_0000
  }

  function TypedBytes(p: TypedProposal, tail: seq<byte>): seq<byte> {
    [6] + (p.fixed + Blob(p.actionId, Blob(p.nonce, tail)))
  }

  lemma TypedFront(p: TypedProposal, tail: seq<byte>)
    requires TypedValid(p)
    ensures ParseTyped(TypedBytes(p, tail))
         == match TypedTail(tail)
            case Err(e) => Err(e)
            case Ok((policy, clearText)) => Ok(p.(policy := policy, clearText := clearText))
  {
    hide Blob, TakeBlob, TakeBytes;
    assert TypedBytes(p, tail)[1..] == p.fixed + Blob(p.actionId, Blob(p.nonce, tail));
    BytesBack(p.fixed, Blob(p.actionId, Blob(p.nonce, tail)));
    BlobBack(p.actionId, Blob(p.nonce, tail));
    BlobBack(p.nonce, tail);
  }

  /** Typed proposals decode from the current layout always, and from the old one exactly when the
      bytes behind the text do not read as a blob, or text and blob are both empty. */
  lemma TypedDecodes(p: TypedProposal, extra: seq<byte>)
    requires TypedValid(p)
    ensures ParseTyped(TypedBytes(p, Blob(p.policy, Blob(p.clearText, extra)))) == Ok(p)
    ensures p.policy == [] ==>
      (ParseTyped(TypedBytes(p, Blob(p.clearText, extra))) == Ok(p)
       <==> |extra| < 4 || FromLE(extra[..4]) > |extra| - 4 || (p.clearText == [] && FromLE(extra[..4]) == 0))
  {
    hide Blob, TakeBlob, TakeBytes, FromLE, TypedBytes, ParseTyped;
    TypedFront(p, Blob(p.policy, Blob(p.clearText, extra)));
    BlobBack(p.policy, Blob(p.clearText, extra));
    BlobBack(p.clearText, extra);
    TypedFront(p, Blob(p.clearText, extra));
    TrailingBlob(extra);
  }

  // ----- Policy ciphertext identifiers -----

  datatype IdError = TooMany | IdTooLong | OverLimit

  /** `str::as_bytes`. */
  type Utf8 = string -> seq<byte>

  /** `String::from_utf8_lossy`. */
  type FromUtf8 = seq<byte> -> string

  /** The trimmed identifiers that are not empty, in order. */
  function Kept(ids: seq<string>): seq<string> {
    if ids == [] then [] else
    var id := Decimal.Trim(ids[|ids| - 1]);
    Kept(ids[..|ids| - 1]) + if id == "" then [] else [id]
  }

  function IdBytes(ids: seq<string>, utf8: Utf8): seq<byte> {
    if ids == [] then [] else
    var s := utf8(ids[|ids| - 1]);
    IdBytes(ids[..|ids| - 1], utf8) + (LE(|s|, 2) + s)
  }

  function EncodedSize(ids: seq<string>, utf8: Utf8): nat {
    if ids == [] then 2 else EncodedSize(ids[..|ids| - 1], utf8) + 2 + |utf8(ids[|ids| - 1])|
  }

  /** `encode_policy_ciphertexts`. */
  method EncodePolicyCiphertexts(ids: seq<string>, utf8: Utf8) returns (r: Result<seq<byte>, IdError>)
    ensures r.Ok? <==> EncodedSize(Kept(ids), utf8) <= 2048
    ensures r.Ok? ==> r.value == LE(|Kept(ids)|, 2) + IdBytes(Kept(ids), utf8)
    ensures r == Err(TooMany) <==> |Kept(ids)| > 0xFFFF
    ensures r == Err(IdTooLong) <==> |Kept(ids)| <= 0xFFFF && exists id :: id in Kept(ids) && |utf8(id)| > 0xFFFF
  {
    hide LE, Kept;
    var kept := Kept(ids);
    SizeCovers(kept, utf8);
    if |kept| > 0xFFFF {
      return Err(TooMany);
    }
    var out := LE(|kept|, 2);
    for i := 0 to |kept|
      invariant out == LE(|kept|, 2) + IdBytes(kept[..i], utf8) && |out| == EncodedSize(kept[..i], utf8)
      invariant forall j :: 0 <= j < i ==> |utf8(kept[j])| <= 0xFFFF
    {
      var s := utf8(kept[i]);
      if |s| > 0xFFFF {
        return Err(IdTooLong);
      }
      assert kept[..i + 1][..i] == kept[..i];
      out := out + LE(|s|, 2);
      out := out + s;
      assert out == LE(|kept|, 2) + (IdBytes(kept[..i], utf8) + (LE(|s|, 2) + s));
    }
    assert kept[..|kept|] == kept;
    if |out| > 2048 {
      return Err(OverLimit);
    }
    return Ok(out);
  }

  /** The size limit alone already rules out too many identifiers and too long ones. */
  lemma {:induction false} SizeCovers(ids: seq<string>, utf8: Utf8)
    ensures EncodedSize(ids, utf8) >= 2 + 2 * |ids|
    ensures forall i :: 0 <= i < |ids| ==> EncodedSize(ids, utf8) >= 4 + |utf8(ids[i])|
  {
    if ids != [] {
      var front := ids[..|ids| - 1];
      SizeCovers(front, utf8);
      assert forall i :: 0 <= i < |front| ==> ids[i] == front[i];
    }
  }

  /** The identifiers a decoder takes off the bytes. */
  function TakeIds(b: seq<byte>, count: nat, lossy: FromUtf8): Taken<seq<string>> {
    if count == 0 then Ok(([], b)) else
    var (ids, rest) :- TakeIds(b, count - 1, lossy);
    var (n, s) :- TakeWord(rest, 2);
    var (own, end) :- TakeBytes(s, n);
    Ok((ids + [lossy(own)], end))
  }

  function DecodeIds(b: seq<byte>, lossy: FromUtf8): Result<seq<string>, ReadError> {
    if b == [] then Ok([]) else
    var (count, rest) :- TakeWord(b, 2);
    var (ids, _) :- TakeIds(rest, count, lossy);
    Ok(ids)
  }

  /** `decode_policy_ciphertexts`. */
  method DecodePolicyCiphertexts(data: seq<byte>, lossy: FromUtf8) returns (r: Result<seq<string>, ReadError>)
    ensures r == DecodeIds(data, lossy)
  {
    hide TakeBytes, TakeWord;
    if data == [] {
      return Ok([]);
    }
    var c := new Cursor(data, 0);
    assert c.Rest() == data;
    var count :- c.ReadWord(2);
    var ids: seq<string> := [];
    ghost var start := c.Rest();
    for i := 0 to count
      invariant c.Valid() && TakeIds(start, i, lossy) == Ok((ids, c.Rest()))
    {
      FailedIds(start, i + 1, count, lossy);
      var n :- c.ReadWord(2);
      var s :- c.ReadBytes(n);
      ids := ids + [lossy(s)];
    }
    return Ok(ids);
  }

  lemma {:induction false} FailedIds(b: seq<byte>, i: nat, count: nat, lossy: FromUtf8)
    requires i <= count
    ensures TakeIds(b, i, lossy).Err? ==> TakeIds(b, count, lossy) == TakeIds(b, i, lossy)
    decreases count
  {
    hide TakeBytes, TakeWord;
    if i < count {
      FailedIds(b, i, count - 1, lossy);
    }
  }

  lemma {:induction false} IdsBack(ids: seq<string>, utf8: Utf8, lossy: FromUtf8, extra: seq<byte>)
    requires forall s: string :: lossy(utf8(s)) == s
    requires forall i :: 0 <= i < |ids| ==> |utf8(ids[i])| <= 0xFFFF
    ensures TakeIds(IdBytes(ids, utf8) + extra, |ids|, lossy) == Ok((ids, extra))
  {
    hide TakeBytes, TakeWord, LE, Pow;
    if ids == [] {
      Nothing(extra);
    } else {
      var front, id := ids[..|ids| - 1], ids[|ids| - 1];
      var s := utf8(id);
      WordSizes();
      IdsBack(front, utf8, lossy, LE(|s|, 2) + (s + extra));
      Assoc(LE(|s|, 2), s, extra);
      Assoc(IdBytes(front, utf8), LE(|s|, 2) + s, extra);
      WordBack(|s|, 2, s + extra);
      BytesBack(s, extra);
      assert front + [id] == ids;
    }
  }

  /** What an intent account says about its ciphertexts: nothing if they do not decode. */
  function CiphertextIds(a: IntentAccount, lossy: FromUtf8): seq<string> {
    var r := DecodeIds(a.ciphertexts, lossy);
    if r.Ok? then r.value else []
  }

  /** Identifiers that were encoded into an account come back trimmed, without the empty ones and in
      order, through the whole account layout and whatever follows it. */
  lemma IdsSurvive(a: IntentAccount, ids: seq<string>, utf8: Utf8, lossy: FromUtf8, extra: seq<byte>)
    requires forall s: string :: lossy(utf8(s)) == s
    requires FrontValid(a) && TailValid(a) && EncodedSize(Kept(ids), utf8) <= 2048
    requires a.ciphertexts == LE(|Kept(ids)|, 2) + IdBytes(Kept(ids), utf8)
    ensures ParseIntent(CurrentBytes(a, extra)).Ok?
    ensures CiphertextIds(ParseIntent(CurrentBytes(a, extra)).value, lossy) == Kept(ids)
  {
    hide FrontValid, CurrentBytes, ParseIntent, TakeWord, LE, Pow, Kept, TakeIds;
    CurrentDecodes(a, extra);
    var kept := Kept(ids);
    SizeCovers(kept, utf8);
    WordSizes();
    WordBack(|kept|, 2, IdBytes(kept, utf8));
    IdsBack(kept, utf8, lossy, []);
    assert IdBytes(kept, utf8) + [] == IdBytes(kept, utf8);
  }
}
