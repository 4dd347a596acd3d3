/** Account layouts and identifier lists as tables of fields, and which identifiers are kept. */
module AccountSchema {
  import opened Base
  import opened Accounts
  import opened Schema
  import Decimal

  // ----- Layouts -----

  function RawFields(es: seq<seq<byte>>): seq<Field> {
    if es == [] then [] else [Raw(es[0])] + RawFields(es[1..])
  }

  /** A vector of entries behind its count. */
  function ListFields(es: seq<seq<byte>>): seq<Field> { [Number(|es|, 4)] + RawFields(es) }

  function FrontFields(a: IntentAccount): seq<Field> {
    [Byte(2), Raw(a.identity), Byte(if a.approved then 1 else 0), Raw(a.numbers)]
    + ListFields(a.lists.proposers) + ListFields(a.lists.approvers) + ListFields(a.lists.params)
    + ListFields(a.lists.accounts) + ListFields(a.lists.instructions) + ListFields(a.lists.segments) + ListFields(a.lists.seeds)
  }

  lemma BlobThen(v: seq<byte>, t: seq<byte>)
    ensures Spelled(Part(v)) + t == Blob(v, t)
  {
    hide LE, Places;
    LEIsPlaces(|v|, 4);
    Assoc(LE(|v|, 4), v, t);
  }

  lemma {:induction false} RawSpelled(es: seq<seq<byte>>, t: seq<byte>)
    ensures SpellFrom(RawFields(es), 0, t) == Join(es, t)
  {
    if es != [] {
      SpellPlus([Raw(es[0])], RawFields(es[1..]), 0, t);
      RawSpelled(es[1..], t);
      Peel([Raw(es[0])], 0, Join(es[1..], t));
    }
  }

  lemma ListSpelled(es: seq<seq<byte>>, t: seq<byte>)
    ensures SpellFrom(ListFields(es), 0, t) == Entries(es, t)
  {
    hide LE, Places, Join, RawFields;
    SpellPlus([Number(|es|, 4)], RawFields(es), 0, t);
    RawSpelled(es, t);
    Peel([Number(|es|, 4)], 0, Join(es, t));
    LEIsPlaces(|es|, 4);
  }

  lemma FrontSpelled(a: IntentAccount, t: seq<byte>)
    ensures SpellFrom(FrontFields(a), 0, t) == FrontBytes(a, t)
  {
    hide SpellFrom, ListFields, Entries;
    var l := a.lists;
    var b7 := Entries(l.seeds, t);
    var b6 := Entries(l.segments, b7);
    var b5 := Entries(l.instructions, b6);
    var b4 := Entries(l.accounts, b5);
    var b3 := Entries(l.params, b4);
    var b2 := Entries(l.approvers, b3);
    var b1 := Entries(l.proposers, b2);
    var head := [Byte(2), Raw(a.identity), Byte(if a.approved then 1 else 0), Raw(a.numbers)];
    var h1 := head + ListFields(l.proposers);
    var h2 := h1 + ListFields(l.approvers);
    var h3 := h2 + ListFields(l.params);
    var h4 := h3 + ListFields(l.accounts);
    var h5 := h4 + ListFields(l.instructions);
    var h6 := h5 + ListFields(l.segments);
    SpellPlus(h6, ListFields(l.seeds), 0, t);
    ListSpelled(l.seeds, t);
    SpellPlus(h5, ListFields(l.segments), 0, b7);
    ListSpelled(l.segments, b7);
    SpellPlus(h4, ListFields(l.instructions), 0, b6);
    ListSpelled(l.instructions, b6);
    SpellPlus(h3, ListFields(l.accounts), 0, b5);
    ListSpelled(l.accounts, b5);
    SpellPlus(h2, ListFields(l.params), 0, b4);
    ListSpelled(l.params, b4);
    SpellPlus(h1, ListFields(l.approvers), 0, b3);
    ListSpelled(l.approvers, b3);
    SpellPlus(head, ListFields(l.proposers), 0, b2);
    ListSpelled(l.proposers, b2);
    Peel(head, 0, b1);
  }

  /** The three layouts of an intent account. */
  lemma IntentAsTable(a: IntentAccount, extra: seq<byte>)
    ensures CurrentBytes(a, extra) == Spell(FrontFields(a) + [Part(a.ciphertexts), Part(a.pool), Raw(extra)])
    ensures LegacyBytes(a, extra) == Spell(FrontFields(a) + [Part(a.pool), Raw(extra)])
    ensures FrontBytes(a, []) == Spell(FrontFields(a))
  {
    hide FrontFields, FrontBytes, SpellFrom, Spelled, Blob;
    FieldsThen();
    Nothing(extra);
    var current, legacy := [Part(a.ciphertexts), Part(a.pool), Raw(extra)], [Part(a.pool), Raw(extra)];
    SpellPlus(FrontFields(a), current, 0, []);
    SpellPlus(FrontFields(a), legacy, 0, []);
    Peel(current, 0, []);
    Peel(legacy, 0, []);
    BlobThen(a.pool, extra);
    BlobThen(a.ciphertexts, Blob(a.pool, extra));
    FrontSpelled(a, Blob(a.ciphertexts, Blob(a.pool, extra)));
    FrontSpelled(a, Blob(a.pool, extra));
    FrontSpelled(a, []);
  }

  /** A typed proposal in the current layout, and in the old one. */
  lemma TypedAsTable(p: TypedProposal, extra: seq<byte>)
    ensures TypedBytes(p, Blob(p.policy, Blob(p.clearText, extra)))
            == Spell([Byte(6), Raw(p.fixed), Part(p.actionId), Part(p.nonce), Part(p.policy), Part(p.clearText), Raw(extra)])
    ensures TypedBytes(p, Blob(p.clearText, extra))
            == Spell([Byte(6), Raw(p.fixed), Part(p.actionId), Part(p.nonce), Part(p.clearText), Raw(extra)])
  {
    hide SpellFrom, Spelled, Blob;
    FieldsThen();
    Nothing(extra);
    var current := [Byte(6), Raw(p.fixed), Part(p.actionId), Part(p.nonce), Part(p.policy), Part(p.clearText), Raw(extra)];
    var legacy := [Byte(6), Raw(p.fixed), Part(p.actionId), Part(p.nonce), Part(p.clearText), Raw(extra)];
    Peel(current, 0, []);
    Peel(current, 4, []);
    Peel(legacy, 0, []);
    Peel(legacy, 4, []);
    BlobThen(p.clearText, extra);
    BlobThen(p.policy, Blob(p.clearText, extra));
    BlobThen(p.nonce, Blob(p.policy, Blob(p.clearText, extra)));
    BlobThen(p.nonce, Blob(p.clearText, extra));
    BlobThen(p.actionId, Blob(p.nonce, Blob(p.policy, Blob(p.clearText, extra))));
    BlobThen(p.actionId, Blob(p.nonce, Blob(p.clearText, extra)));
  }

  // ----- Identifiers -----

  function IdFields(ids: seq<string>, utf8: Utf8): seq<Field> {
    if ids == [] then [] else [Sized(utf8(ids[0]))] + IdFields(ids[1..], utf8)
  }

  lemma {:induction false} IdBytesCons(id: string, ids: seq<string>, utf8: Utf8)
    ensures IdBytes([id] + ids, utf8) == LE(|utf8(id)|, 2) + utf8(id) + IdBytes(ids, utf8)
  {
    hide LE;
    var all := [id] + ids;
    var own := LE(|utf8(id)|, 2) + utf8(id);
    if ids == [] {
      assert all[..0] == [];
      Nothing(own);
    } else {
      var n := |ids| - 1;
      assert all[..|all| - 1] == [id] + ids[..n];
      IdBytesCons(id, ids[..n], utf8);
      Assoc(own, IdBytes(ids[..n], utf8), LE(|utf8(ids[n])|, 2) + utf8(ids[n]));
    }
  }

  lemma {:induction false} IdsSpelled(ids: seq<string>, utf8: Utf8)
    ensures SpellFrom(IdFields(ids, utf8), 0, []) == IdBytes(ids, utf8)
  {
    hide LE, Spelled;
    if ids != [] {
      FieldsThen();
      SpellPlus([Sized(utf8(ids[0]))], IdFields(ids[1..], utf8), 0, []);
      IdsSpelled(ids[1..], utf8);
      Peel([Sized(utf8(ids[0]))], 0, IdBytes(ids[1..], utf8));
      IdBytesCons(ids[0], ids[1..], utf8);
      assert ids == [ids[0]] + ids[1..];
      Assoc(LE(|utf8(ids[0])|, 2), utf8(ids[0]), IdBytes(ids[1..], utf8));
    }
  }

  /** Encoded identifiers are their count and then each behind its length. */
  lemma IdsAsTable(ids: seq<string>, utf8: Utf8)
    ensures LE(|Kept(ids)|, 2) + IdBytes(Kept(ids), utf8) == Spell([Number(|Kept(ids)|, 2)] + IdFields(Kept(ids), utf8))
  {
    hide LE, Spelled, Kept, SpellFrom, IdFields;
    FieldsThen();
    var kept := Kept(ids);
    SpellPlus([Number(|kept|, 2)], IdFields(kept, utf8), 0, []);
    IdsSpelled(kept, utf8);
    Peel([Number(|kept|, 2)], 0, IdBytes(kept, utf8));
  }

  /** Some places, in order, and all that are not blank. */
  ghost predicate NotBlank(at: seq<nat>, ids: seq<string>) {
    && (forall j :: 0 <= j < |at| ==> at[j] < |ids| && !Decimal.AllSpace(ids[at[j]]))
    && (forall j, k :: 0 <= j < k < |at| ==> at[j] < at[k])
    && (forall i :: 0 <= i < |ids| && !Decimal.AllSpace(ids[i]) ==> i in at)
  }

  lemma NotBlankSnoc(at: seq<nat>, ids: seq<string>, id: string)
    requires NotBlank(at, ids)
    ensures NotBlank(if Decimal.AllSpace(id) then at else at + [|ids|], ids + [id])
  {
    hide Decimal.AllSpace;
    var more := if Decimal.AllSpace(id) then at else at + [|ids|];
    assert forall j :: 0 <= j < |at| ==> more[j] == at[j] && (ids + [id])[at[j]] == ids[at[j]];
    forall i | 0 <= i < |ids + [id]| && !Decimal.AllSpace((ids + [id])[i]) ensures i in more {
      if i < |ids| {
        assert (ids + [id])[i] == ids[i];
        assert i in at;
      } else {
        assert more[|at|] == i;
      }
    }
  }

  /** The identifiers kept are the trimmed texts of those that are not blank, each once and in order. */
  lemma {:induction false} KeptExactly(ids: seq<string>) returns (at: seq<nat>)
    ensures NotBlank(at, ids) && |Kept(ids)| == |at| && forall j :: 0 <= j < |at| ==> Kept(ids)[j] == Decimal.Trim(ids[at[j]])
  {
    hide Decimal.Trim, Decimal.AllSpace, NotBlank;
    if ids == [] {
      at := [];
      assert NotBlank([], []) by { NoneBlank(); }
    } else {
      var n := |ids| - 1;
      var front := KeptExactly(ids[..n]);
      Decimal.BlankIff(ids[n]);
      NotBlankSnoc(front, ids[..n], ids[n]);
      assert ids == ids[..n] + [ids[n]];
      at := if Decimal.AllSpace(ids[n]) then front else front + [n];
      KeptPlaces(front, ids, n);
    }
  }

  lemma NoneBlank()
    ensures NotBlank([], [])
  {
  }

  lemma KeptPlaces(front: seq<nat>, ids: seq<string>, n: nat)
    requires n <= |ids| && NotBlank(front, ids[..n])
    ensures forall j :: 0 <= j < |front| ==> front[j] < n && ids[front[j]] == ids[..n][front[j]]
  {
  }

  function SizedFields(parts: seq<seq<byte>>): seq<Field> {
    if parts == [] then [] else SizedFields(parts[..|parts| - 1]) + [Sized(parts[|parts| - 1])]
  }

  /** Identifiers are read only from whole parts behind their lengths, one for each that is counted;
      otherwise the bytes end too early. */
  lemma {:induction false} IdsSplit(b: seq<byte>, count: nat, lossy: FromUtf8) returns (parts: seq<seq<byte>>)
    ensures TakeIds(b, count, lossy).Err? ==> TakeIds(b, count, lossy).error == UnexpectedEnd
    ensures TakeIds(b, count, lossy).Ok? ==>
              var (ids, rest) := TakeIds(b, count, lossy).value;
              && |ids| == |parts| == count && b == SpellFrom(SizedFields(parts), 0, rest)
              && forall i :: 0 <= i < count ==> ids[i] == lossy(parts[i])
  {
    hide LE, FromLE, Pow, Spelled;
    parts := [];
    if count > 0 {
      var front := IdsSplit(b, count - 1, lossy);
      if TakeIds(b, count, lossy).Ok? {
        var rest := TakeIds(b, count - 1, lossy).value.1;
        WordSplit(rest, 2);
        var (n, s) := TakeWord(rest, 2).value;
        var own, end := s[..n], s[n..];
        assert s == own + end;
        parts := front + [own];
        assert parts[..count - 1] == front;
        SpellPlus(SizedFields(front), [Sized(own)], 0, end);
        Peel([Sized(own)], 0, end);
        SizedIs(own, end);
      }
    }
  }

  lemma SizedIs(v: seq<byte>, t: seq<byte>)
    ensures Spelled(Sized(v)) + t == LE(|v|, 2) + (v + t)
  {
    hide LE, Places;
    LEIsPlaces(|v|, 2);
    Assoc(LE(|v|, 2), v, t);
  }

  /** What an account is refused for before its lists are read. */
  lemma FrontRefused(b: seq<byte>)
    ensures b == [] || b[0] != 2 ==> ParseIntent(b) == Err(WrongAccount)
    ensures 0 < |b| < 38 && b[0] == 2 ==> ParseIntent(b) == Err(UnexpectedEnd)
    ensures |b| >= 38 && b[0] == 2 && b[37] > 1 ==> ParseIntent(b) == Err(InvalidDiscriminant)
    ensures b == [] || b[0] != 6 ==> ParseTyped(b) == Err(WrongAccount)
    ensures 0 < |b| < 264 && b[0] == 6 ==> ParseTyped(b) == Err(UnexpectedEnd)
  {
    hide TakeLists, IntentTail, TakeBlob;
    if |b| >= 38 {
      assert b[1..][36..][..1] == [b[37]];
      assert FromLE([b[37]]) == b[37] by { OneByte(b[37]); }
    }
  }

  lemma OneByte(b: byte)
    ensures FromLE([b]) == b
  {
    assert [b][1..] == [];
  }
}
