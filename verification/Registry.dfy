/** The managed template registry: versions are published once, never change, and can only be
    withdrawn, for good, by whoever published them. */
module Registry {
  import opened Base
  import Decimal
  import Io
  import Templates

  // ----- Template definitions -----

  /** An `IntentTransactionJson`. `rest` stands for its chain, accounts, instructions and
      transaction template. */
  datatype Definition = Definition(
    schemaVersion: u16,
    templateId: Option<string>,
    params: seq<(string, Templates.ParamType)>,
    template: string,
    rest: seq<byte>)

  /** What this module does not look into: the checks on `rest`, the digest of the canonical JSON,
      and the built-in templates. */
  datatype Rules = Rules(
    restValid: Definition -> bool,
    digest: Definition -> Bytes32,
    builtin: string -> bool)

  predicate IdChar(c: char) { 'a' <= c <= 'z' || '0' <= c <= '9' || c == '_' || c == '-' }

  predicate IdRule(id: string) { id != "" && forall i :: 0 <= i < |id| ==> IdChar(id[i]) }

  predicate NamesDistinct(params: seq<(string, Templates.ParamType)>) {
    && (forall i :: 0 <= i < |params| ==> params[i].0 != "")
    && (forall i, j :: 0 <= i < j < |params| ==> params[i].0 != params[j].0)
  }

  function TypesOf(params: seq<(string, Templates.ParamType)>): seq<Templates.ParamType> {
    seq(|params|, i requires 0 <= i < |params| => params[i].1)
  }

  predicate DefinitionValid(rules: Rules, d: Definition) {
    && d.schemaVersion == 1
    && (d.templateId.Some? ==> IdRule(d.templateId.value))
    && NamesDistinct(d.params)
    && rules.restValid(d)
    && Templates.Valid(d.template, TypesOf(d.params))
  }

  function HashText(rules: Rules, d: Definition): string { Io.Chars(Io.HexText(rules.digest(d))) }

  function LowerChar(c: char): char { if 'A' <= c <= 'Z' then ((c as int) + 32) as char else c }

  function Lower(s: string): (r: string)
    ensures |r| == |s|
  {
    seq(|s|, i requires 0 <= i < |s| => LowerChar(s[i]))
  }

  // ----- The registry -----

  datatype Status = Published | Revoked

  datatype Entry = Entry(
    id: string,
    version: u32,
    publisher: string,
    status: Status,
    hash: string,
    definition: Definition)

  datatype RegistryError =
    | EmptyPublisher
    | ZeroVersion
    | InvalidDefinition
    | MissingId
    | ShadowsBuiltin
    | VersionImmutable
    | NotFound
    | NotThePublisher
    | VersionRevoked
    | HashMismatch

  predicate Names(e: Entry, id: string, version: u32) { e.id == id && e.version == version }

  /** The first entry of a version. */
  function IndexOf(s: seq<Entry>, id: string, version: u32): (r: Option<nat>)
    ensures r.Some? ==> r.value < |s| && Names(s[r.value], id, version)
    ensures r.Some? ==> forall i :: 0 <= i < r.value ==> !Names(s[i], id, version)
    ensures r.None? ==> forall i :: 0 <= i < |s| ==> !Names(s[i], id, version)
  {
    if s == [] then None else
    match IndexOf(s[..|s| - 1], id, version)
    case Some(i) => Some(i)
    case None => if Names(s[|s| - 1], id, version) then Some(|s| - 1) else None
  }

  function Lookup(s: seq<Entry>, id: string, version: u32): Option<Entry> {
    match IndexOf(s, id, version)
    case None => None
    case Some(i) => Some(s[i])
  }

  /** The checks `publish` makes before it looks at the registry. White space around an id needs no
      care: the id rule allows none. */
  function Admit(rules: Rules, publisher: string, version: u32, d: Definition): Result<Entry, RegistryError> {
    var _ :- Need(Decimal.Trim(publisher) != "", EmptyPublisher);
    var _ :- Need(version != 0, ZeroVersion);
    var _ :- Need(DefinitionValid(rules, d), InvalidDefinition);
    var _ :- Need(d.templateId.Some?, MissingId);
    var id := Decimal.Trim(d.templateId.value);
    var _ :- Need(!rules.builtin(id), ShadowsBuiltin);
    Ok(Entry(id, version, Decimal.Trim(publisher), Published, HashText(rules, d), d))
  }

  /** What a version becomes when someone publishes it. */
  function Enter(before: Option<Entry>, e: Entry): Result<Entry, RegistryError> {
    if before.None? then Ok(e)
    else if before.value.(status := e.status) == e then Ok(before.value)
    else Err(VersionImmutable)
  }

  /** What a version becomes when someone withdraws it. */
  function Withdraw(before: Option<Entry>, publisher: string): Result<Entry, RegistryError> {
    if before.None? then Err(NotFound)
    else if before.value.publisher != Decimal.Trim(publisher) then Err(NotThePublisher)
    else Ok(before.value.(status := Revoked))
  }

  function Resolve(found: Option<Entry>, hash: string): Result<Entry, RegistryError> {
    if found.None? then Err(NotFound)
    else if found.value.status != Published then Err(VersionRevoked)
    else if Lower(found.value.hash) != Lower(Decimal.Trim(hash)) then Err(HashMismatch)
    else Ok(found.value)
  }

  predicate EntryConsistent(rules: Rules, e: Entry) {
    && DefinitionValid(rules, e.definition)
    && e.version != 0
    && Decimal.Trim(e.publisher) != ""
    && e.definition.templateId == Some(e.id)
    && e.hash == HashText(rules, e.definition)
    && !rules.builtin(e.id)
  }

  predicate NoDuplicate(s: seq<Entry>, n: nat)
    requires n < |s|
  {
    forall j :: 0 <= j < n ==> !Names(s[j], s[n].id, s[n].version)
  }

  /** A registry that validation accepts. */
  predicate Consistent(rules: Rules, s: seq<Entry>) {
    forall i :: 0 <= i < |s| ==> EntryConsistent(rules, s[i]) && NoDuplicate(s, i)
  }

  class ManagedIntentRegistry {
    var registryVersion: u16
    var templates: seq<Entry>

    constructor ()
      ensures registryVersion == 1 && templates == []
    {
      registryVersion, templates := 1, [];
    }

    /** A version is appended once; publishing it again as it was changes nothing, not even its status. */
    method Publish(rules: Rules, publisher: string, version: u32, d: Definition)
      returns (r: Result<Entry, RegistryError>)
      modifies this`templates
      ensures templates == Apply(rules, old(templates), PublishOp(publisher, version, d))
      ensures var admitted := Admit(rules, publisher, version, d);
        if admitted.Err? then r == Err(admitted.error)
        else r == Enter(Lookup(old(templates), admitted.value.id, version), admitted.value)
      ensures r.Ok? ==> Lookup(templates, r.value.id, version) == Some(r.value)
    {
      hide DefinitionValid, HashText, Decimal.Trim;
      var e :- Admit(rules, publisher, version, d);
      var index := IndexOf(templates, e.id, version);
      if index.Some? {
        var existing := templates[index.value];
        if existing.publisher == e.publisher && existing.hash == e.hash && existing.definition == d {
          return Ok(existing);
        }
        return Err(VersionImmutable);
      }
      LookupAppend(templates, e, e.id, version);
      templates := templates + [e];
      return Ok(e);
    }

    method Revoke(publisher: string, id: string, version: u32) returns (r: Result<(), RegistryError>)
      modifies this`templates
      ensures forall rules :: templates == Apply(rules, old(templates), RevokeOp(publisher, id, version))
      ensures var w := Withdraw(Lookup(old(templates), id, version), publisher);
        r == if w.Err? then Err(w.error) else Ok(())
    {
      hide Decimal.Trim;
      var index := IndexOf(templates, id, version);
      if index.None? {
        return Err(NotFound);
      }
      var entry := templates[index.value];
      if entry.publisher != Decimal.Trim(publisher) {
        return Err(NotThePublisher);
      }
      templates := templates[index.value := entry.(status := Revoked)];
      return Ok(());
    }

    method ResolvePublished(id: string, version: u32, hash: string) returns (r: Result<Entry, RegistryError>)
      ensures r == Resolve(Lookup(templates, id, version), hash)
    {
      hide Decimal.Trim;
      var index := IndexOf(templates, id, version);
      if index.None? {
        return Err(NotFound);
      }
      var entry := templates[index.value];
      if entry.status != Published {
        return Err(VersionRevoked);
      }
      if Lower(entry.hash) != Lower(Decimal.Trim(hash)) {
        return Err(HashMismatch);
      }
      return Ok(entry);
    }

    method Validate(rules: Rules) returns (ok: bool)
      ensures ok == (registryVersion == 1 && Consistent(rules, templates))
    {
      hide EntryConsistent;
      if registryVersion != 1 {
        return false;
      }
      for i := 0 to |templates|
        invariant forall k :: 0 <= k < i ==> EntryConsistent(rules, templates[k]) && NoDuplicate(templates, k)
      {
        var entry := templates[i];
        if !EntryConsistent(rules, entry) {
          return false;
        }
        for j := 0 to i
          invariant forall k :: 0 <= k < j ==> !Names(templates[k], entry.id, entry.version)
        {
          if Names(templates[j], entry.id, entry.version) {
            assert !NoDuplicate(templates, i);
            return false;
          }
        }
      }
      return true;
    }
  }

  // ----- Runs -----

  datatype Op =
    | PublishOp(publisher: string, version: u32, definition: Definition)
    | RevokeOp(publisher: string, id: string, version: u32)

  function Apply(rules: Rules, s: seq<Entry>, op: Op): seq<Entry> {
    match op
    case PublishOp(publisher, version, d) =>
      var e := Admit(rules, publisher, version, d);
      if e.Ok? && Lookup(s, e.value.id, version).None? then s + [e.value] else s
    case RevokeOp(publisher, id, version) =>
      match IndexOf(s, id, version)
      case None => s
      case Some(i) => if Withdraw(Some(s[i]), publisher).Ok? then s[i := s[i].(status := Revoked)] else s
  }

  function Run(rules: Rules, s: seq<Entry>, ops: seq<Op>): seq<Entry> {
    if ops == [] then s else Apply(rules, Run(rules, s, ops[..|ops| - 1]), ops[|ops| - 1])
  }

  lemma LookupAppend(s: seq<Entry>, e: Entry, id: string, version: u32)
    ensures Lookup(s + [e], id, version)
         == if Lookup(s, id, version).Some? then Lookup(s, id, version)
            else if Names(e, id, version) then Some(e) else None
  {
    assert (s + [e])[..|s|] == s;
  }

  lemma LookupUpdate(s: seq<Entry>, i: nat, e: Entry, id: string, version: u32)
    requires i < |s| && Names(s[i], e.id, e.version) && IndexOf(s, e.id, e.version) == Some(i)
    ensures Lookup(s[i := e], id, version) == if Names(e, id, version) then Some(e) else Lookup(s, id, version)
  {
    var t := s[i := e];
    var k, m := IndexOf(s, id, version), IndexOf(t, id, version);
    assert forall j :: 0 <= j < |s| ==> (Names(t[j], id, version) <==> Names(s[j], id, version));
    assert k.Some? ==> Names(t[k.value], id, version);
    assert m.Some? ==> Names(s[m.value], id, version);
  }

  lemma IdIsTrimmed(id: string)
    requires IdRule(id)
    ensures Decimal.Trim(id) == id
  {
    hide Decimal.Trim, Decimal.IsSpace, IdChar;
    IdCharNotSpace(id[0]);
    IdCharNotSpace(id[|id| - 1]);
  }

  lemma TrimTwice(s: string)
    ensures Decimal.Trim(Decimal.Trim(s)) == Decimal.Trim(s)
  {
    hide Decimal.Trim, Decimal.IsSpace;
  }

  lemma IdCharNotSpace(c: char)
    requires IdChar(c)
    ensures !Decimal.IsSpace(c)
  {
  }

  // ----- One version's life -----

  /** An operation that would publish this version, were it not there. */
  predicate Publishes(rules: Rules, op: Op, id: string, version: u32) {
    && op.PublishOp? && op.version == version && op.definition.templateId == Some(id)
    && Admit(rules, op.publisher, version, op.definition).Ok?
  }

  function NewEntry(rules: Rules, op: Op, id: string, version: u32): Entry
    requires op.PublishOp?
  {
    Entry(id, version, Decimal.Trim(op.publisher), Published, HashText(rules, op.definition), op.definition)
  }

  /** The same operation as one version sees it, knowing nothing of the others. */
  function LifeStep(rules: Rules, now: Option<Entry>, op: Op, id: string, version: u32): Option<Entry> {
    if now.None? then
      if Publishes(rules, op, id, version) then Some(NewEntry(rules, op, id, version)) else None
    else if op.RevokeOp? && op.id == id && op.version == version && Decimal.Trim(op.publisher) == now.value.publisher then
      Some(now.value.(status := Revoked))
    else now
  }

  function Life(rules: Rules, now: Option<Entry>, ops: seq<Op>, id: string, version: u32): Option<Entry> {
    if ops == [] then now
    else LifeStep(rules, Life(rules, now, ops[..|ops| - 1], id, version), ops[|ops| - 1], id, version)
  }

  lemma AdmitMeans(rules: Rules, publisher: string, version: u32, d: Definition)
    requires Admit(rules, publisher, version, d).Ok?
    ensures d.templateId.Some?
    ensures var e := Admit(rules, publisher, version, d).value;
      && e == NewEntry(rules, PublishOp(publisher, version, d), d.templateId.value, version)
      && EntryConsistent(rules, e)
  {
    hide Templates.Valid, HashText, NamesDistinct, IdRule, Decimal.Trim;
    IdIsTrimmed(d.templateId.value);
    TrimTwice(publisher);
  }

  /** Operations on one version do nothing to another, and act on this one as its life says. */
  lemma StepIsLife(rules: Rules, s: seq<Entry>, op: Op, id: string, version: u32)
    ensures Lookup(Apply(rules, s, op), id, version) == LifeStep(rules, Lookup(s, id, version), op, id, version)
  {
    hide Admit, HashText, Decimal.Trim, IndexOf;
    match op {
      case PublishOp(publisher, v, d) =>
        var e := Admit(rules, publisher, v, d);
        if e.Ok? {
          AdmitMeans(rules, publisher, v, d);
          LookupAppend(s, e.value, id, version);
        }
      case RevokeOp(publisher, i, v) =>
        var k := IndexOf(s, i, v);
        if k.Some? {
          LookupUpdate(s, k.value, s[k.value].(status := Revoked), id, version);
        }
    }
  }

  /** Over any run, what the registry holds for a version is what its own life led to. */
  lemma {:induction false} RunIsLife(rules: Rules, s: seq<Entry>, ops: seq<Op>, id: string, version: u32)
    ensures Lookup(Run(rules, s, ops), id, version) == Life(rules, Lookup(s, id, version), ops, id, version)
  {
    hide Apply, LifeStep, Lookup;
    if ops != [] {
      var n := |ops| - 1;
      RunIsLife(rules, s, ops[..n], id, version);
      StepIsLife(rules, Run(rules, s, ops[..n]), ops[n], id, version);
    }
  }

  /** Publisher, hash and definition of a version never change again, and a withdrawn version stays
      withdrawn whatever is published or revoked later. */
  lemma {:induction false} VersionsImmutable(rules: Rules, s: seq<Entry>, ops: seq<Op>, id: string, version: u32)
    requires Lookup(s, id, version).Some?
    ensures var was, now := Lookup(s, id, version).value, Lookup(Run(rules, s, ops), id, version);
      now == Some(was) || now == Some(was.(status := Revoked))
  {
    hide Apply, Lookup, Decimal.Trim;
    if ops != [] {
      var n := |ops| - 1;
      VersionsImmutable(rules, s, ops[..n], id, version);
      StepIsLife(rules, Run(rules, s, ops[..n]), ops[n], id, version);
    }
  }

  lemma StepKeepsConsistent(rules: Rules, s: seq<Entry>, op: Op)
    requires Consistent(rules, s)
    ensures Consistent(rules, Apply(rules, s, op))
  {
    hide Admit, HashText, DefinitionValid, Decimal.Trim, EntryConsistent, Withdraw;
    var t := Apply(rules, s, op);
    match op {
      case PublishOp(publisher, version, d) =>
        if t != s {
          AdmitMeans(rules, publisher, version, d);
          assert forall i :: 0 <= i < |s| ==> t[i] == s[i] && NoDuplicate(s, i) && EntryConsistent(rules, s[i]);
          assert NoDuplicate(t, |s|);
        }
      case RevokeOp(publisher, id, version) =>
        if t != s {
          var k := IndexOf(s, id, version).value;
          StatusFree(rules, s[k]);
          assert forall i :: 0 <= i < |s| ==> t[i].id == s[i].id && t[i].version == s[i].version && NoDuplicate(s, i);
        }
    }
  }

  lemma StatusFree(rules: Rules, e: Entry)
    ensures EntryConsistent(rules, e.(status := Revoked)) == EntryConsistent(rules, e)
  {
  }

  /** Every run from a registry that validates, the empty one to begin with, ends in one that validates. */
  lemma {:induction false} RunsValidate(rules: Rules, s: seq<Entry>, ops: seq<Op>)
    requires Consistent(rules, s)
    ensures Consistent(rules, Run(rules, s, ops))
  {
    hide Apply, Consistent;
    if ops != [] {
      RunsValidate(rules, s, ops[..|ops| - 1]);
      StepKeepsConsistent(rules, Run(rules, s, ops[..|ops| - 1]), ops[|ops| - 1]);
    }
  }

  // ----- What resolves -----

  predicate FirstAt(rules: Rules, ops: seq<Op>, k: nat, id: string, version: u32) {
    && k < |ops| && Publishes(rules, ops[k], id, version)
    && forall j :: 0 <= j < k ==> !Publishes(rules, ops[j], id, version)
  }

  predicate RevokedBy(op: Op, publisher: string, id: string, version: u32) {
    op.RevokeOp? && op.id == id && op.version == version && Decimal.Trim(op.publisher) == Decimal.Trim(publisher)
  }

  predicate WithdrawnAfter(ops: seq<Op>, k: nat, id: string, version: u32)
    requires k < |ops|
  {
    exists j :: k < j < |ops| && RevokedBy(ops[j], ops[k].publisher, id, version)
  }

  /** What the history of operations says a version is. */
  ghost function Told(rules: Rules, ops: seq<Op>, k: nat, id: string, version: u32): Entry
    requires FirstAt(rules, ops, k, id, version)
  {
    NewEntry(rules, ops[k], id, version).(status := if WithdrawnAfter(ops, k, id, version) then Revoked else Published)
  }

  lemma {:induction false} NeverPublished(rules: Rules, ops: seq<Op>, id: string, version: u32)
    ensures Lookup(Run(rules, [], ops), id, version).None?
            <==> forall k :: 0 <= k < |ops| ==> !Publishes(rules, ops[k], id, version)
  {
    hide Apply, Lookup, Publishes, NewEntry;
    if ops == [] {
      EmptyLookup(id, version);
    } else {
      var n := |ops| - 1;
      NeverPublished(rules, ops[..n], id, version);
      StepIsLife(rules, Run(rules, [], ops[..n]), ops[n], id, version);
    }
  }

  lemma EmptyLookup(id: string, version: u32)
    ensures Lookup([], id, version).None?
  {
  }

  /** The registry holds, for each version, its first admissible publication, withdrawn exactly if its
      publisher revoked it at some later step. */
  lemma {:induction false} History(rules: Rules, ops: seq<Op>, k: nat, id: string, version: u32)
    requires FirstAt(rules, ops, k, id, version)
    ensures Lookup(Run(rules, [], ops), id, version) == Some(Told(rules, ops, k, id, version))
    decreases |ops|
  {
    hide Apply, Lookup, Publishes, Decimal.Trim, HashText;
    var n := |ops| - 1;
    var front := ops[..n];
    StepIsLife(rules, Run(rules, [], front), ops[n], id, version);
    if k == n {
      NeverPublished(rules, front, id, version);
      PublishOnly(rules, ops[n], id, version);
    } else {
      History(rules, front, k, id, version);
      WithdrawnSnoc(ops, k, id, version);
    }
  }

  lemma PublishOnly(rules: Rules, op: Op, id: string, version: u32)
    requires Publishes(rules, op, id, version)
    ensures op.PublishOp?
  {
  }

  lemma WithdrawnSnoc(ops: seq<Op>, k: nat, id: string, version: u32)
    requires k < |ops| - 1
    ensures WithdrawnAfter(ops, k, id, version)
            <==> WithdrawnAfter(ops[..|ops| - 1], k, id, version)
                 || RevokedBy(ops[|ops| - 1], ops[k].publisher, id, version)
  {
    hide RevokedBy;
    var n := |ops| - 1;
    var front := ops[..n];
    if RevokedBy(ops[n], ops[k].publisher, id, version) {
      assert WithdrawnAfter(ops, k, id, version);
    } else if WithdrawnAfter(ops, k, id, version) {
      var j :| k < j < |ops| && RevokedBy(ops[j], ops[k].publisher, id, version);
      assert front[j] == ops[j];
    }
  }

  lemma {:induction false} HashIsLower(rules: Rules, d: Definition)
    ensures Lower(HashText(rules, d)) == HashText(rules, d)
  {
    HexIsLower(rules.digest(d));
  }

  lemma {:induction false} HexIsLower(s: seq<byte>)
    ensures Lower(Io.Chars(Io.HexText(s))) == Io.Chars(Io.HexText(s))
  {
    if s != [] {
      HexIsLower(s[..|s| - 1]);
      var front := Io.HexText(s[..|s| - 1]);
      assert forall i :: 0 <= i < |front| ==> LowerChar(front[i] as char) == Lower(Io.Chars(front))[i] == Io.Chars(front)[i];
    }
  }

  predicate Stands(rules: Rules, ops: seq<Op>, k: nat, id: string, version: u32, hash: string) {
    && FirstAt(rules, ops, k, id, version)
    && !WithdrawnAfter(ops, k, id, version)
    && Lower(Decimal.Trim(hash)) == HashText(rules, ops[k].definition)
  }

  /** A version resolves exactly when it was once published, its publisher never revoked it after,
      and the caller names the digest of what was first published under it, in either case. */
  lemma ResolvesIff(rules: Rules, ops: seq<Op>, id: string, version: u32, hash: string)
    ensures Resolve(Lookup(Run(rules, [], ops), id, version), hash).Ok?
            <==> exists k: nat :: Stands(rules, ops, k, id, version, hash)
  {
    hide Lookup, Publishes, Decimal.Trim, HashText, WithdrawnAfter, Run, Lower;
    NeverPublished(rules, ops, id, version);
    if i :| 0 <= i < |ops| && Publishes(rules, ops[i], id, version) {
      var k := FirstOf(rules, ops, i, id, version);
      History(rules, ops, k, id, version);
      PublishOnly(rules, ops[k], id, version);
      HashIsLower(rules, ops[k].definition);
      assert Resolve(Some(Told(rules, ops, k, id, version)), hash).Ok? <==> Stands(rules, ops, k, id, version, hash);
      forall j: nat | FirstAt(rules, ops, j, id, version)
        ensures j == k
      {
      }
    }
  }

  lemma {:induction false} FirstOf(rules: Rules, ops: seq<Op>, i: nat, id: string, version: u32) returns (k: nat)
    requires i < |ops| && Publishes(rules, ops[i], id, version)
    ensures FirstAt(rules, ops, k, id, version)
  {
    hide Publishes;
    k := i;
    if j :| 0 <= j < i && Publishes(rules, ops[j], id, version) {
      k := FirstOf(rules, ops, j, id, version);
    }
  }

  // ----- What is admitted and how it is answered -----

  /** A publication that can stand on its own: someone publishes a version other than zero of a definition
      in order, under an id in lower case that is no built-in one. */
  predicate Publishable(rules: Rules, publisher: string, version: u32, d: Definition) {
    && (exists i :: 0 <= i < |publisher| && !Decimal.IsSpace(publisher[i])) && version >= 1
    && d.schemaVersion == 1 && d.templateId.Some? && d.templateId.value != ""
    && (forall c :: c in d.templateId.value ==> 'a' <= c <= 'z' || '0' <= c <= '9' || c == '_' || c == '-')
    && (forall i :: 0 <= i < |d.params| ==> d.params[i].0 != "")
    && (forall i, j :: 0 <= i < j < |d.params| ==> d.params[i].0 != d.params[j].0)
    && rules.restValid(d) && Templates.Valid(d.template, TypesOf(d.params)) && !rules.builtin(d.templateId.value)
  }

  /** Exactly such publications are admitted, as published entries with their digest in lower-case
      hexadecimal. */
  lemma AdmitIff(rules: Rules, publisher: string, version: u32, d: Definition)
    ensures Admit(rules, publisher, version, d).Ok? <==> Publishable(rules, publisher, version, d)
    ensures Publishable(rules, publisher, version, d) ==>
              Admit(rules, publisher, version, d)
              == Ok(Entry(d.templateId.value, version, Decimal.Trim(publisher), Published,
                          Io.Chars(Io.HexText(rules.digest(d))), d))
  {
    hide Templates.Valid, Decimal.Trim, Decimal.IsSpace, IdRule;
    Decimal.BlankIff(publisher);
    if d.templateId.Some? {
      IdRuleIff(d.templateId.value);
      if IdRule(d.templateId.value) {
        IdIsTrimmed(d.templateId.value);
      }
    }
  }

  lemma IdRuleIff(id: string)
    ensures IdRule(id) <==> id != "" && forall c :: c in id ==> 'a' <= c <= 'z' || '0' <= c <= '9' || c == '_' || c == '-'
  {
    hide IdChar;
    assert forall i :: 0 <= i < |id| ==> id[i] in id;
    forall c | c in id ensures IdChar(c) <==> 'a' <= c <= 'z' || '0' <= c <= '9' || c == '_' || c == '-' {
      IdCharIs(c);
    }
  }

  lemma IdCharIs(c: char)
    ensures IdChar(c) <==> 'a' <= c <= 'z' || '0' <= c <= '9' || c == '_' || c == '-'
  {
  }

  /** The first reason for which a publication is not admitted. */
  lemma AdmitRefused(rules: Rules, publisher: string, version: u32, d: Definition)
    requires !Publishable(rules, publisher, version, d)
    ensures Admit(rules, publisher, version, d) == Err(
              if Decimal.AllSpace(publisher) then EmptyPublisher
              else if version == 0 then ZeroVersion
              else if !DefinitionValid(rules, d) then InvalidDefinition
              else if d.templateId.None? then MissingId
              else ShadowsBuiltin)
  {
    hide Templates.Valid, Decimal.Trim, Decimal.IsSpace, DefinitionValid, Publishable;
    AdmitIff(rules, publisher, version, d);
    Decimal.BlankIff(publisher);
  }

  /** Validation accepts exactly registries of distinct versions that their publishers could publish, each
      under the id and the digest of its definition. */
  lemma ConsistentIff(rules: Rules, s: seq<Entry>)
    ensures Consistent(rules, s)
            <==> (forall i :: 0 <= i < |s| ==> AsPublished(rules, s[i]))
                 && forall i, j :: 0 <= i < j < |s| ==> (s[i].id, s[i].version) != (s[j].id, s[j].version)
  {
    hide EntryConsistent, AsPublished;
    forall i | 0 <= i < |s| ensures EntryConsistent(rules, s[i]) <==> AsPublished(rules, s[i]) {
      EntryIff(rules, s[i]);
    }
    if Consistent(rules, s) {
      forall i, j | 0 <= i < j < |s| ensures (s[i].id, s[i].version) != (s[j].id, s[j].version) {
        assert NoDuplicate(s, j);
      }
    }
    if forall i, j :: 0 <= i < j < |s| ==> (s[i].id, s[i].version) != (s[j].id, s[j].version) {
      assert forall j :: 0 <= j < |s| ==> NoDuplicate(s, j);
    }
  }

  predicate AsPublished(rules: Rules, e: Entry) {
    && Publishable(rules, e.publisher, e.version, e.definition) && e.definition.templateId == Some(e.id)
    && e.hash == Io.Chars(Io.HexText(rules.digest(e.definition)))
  }

  lemma EntryIff(rules: Rules, e: Entry)
    ensures EntryConsistent(rules, e) <==> AsPublished(rules, e)
  {
    hide Templates.Valid, Decimal.Trim, Decimal.IsSpace, IdRule;
    Decimal.BlankIff(e.publisher);
    IdRuleIff(e.id);
  }

  /** What `publish` answers. */
  function PublishAnswer(rules: Rules, s: seq<Entry>, publisher: string, version: u32, d: Definition): Result<Entry, RegistryError> {
    var admitted := Admit(rules, publisher, version, d);
    if admitted.Err? then Err(admitted.error) else Enter(Lookup(s, admitted.value.id, version), admitted.value)
  }

  /** After any run that has not published it, a publishable version is accepted as new. */
  lemma FirstAnswered(rules: Rules, ops: seq<Op>, publisher: string, version: u32, d: Definition)
    requires Publishable(rules, publisher, version, d)
    requires forall k :: 0 <= k < |ops| ==> !Publishes(rules, ops[k], d.templateId.value, version)
    ensures PublishAnswer(rules, Run(rules, [], ops), publisher, version, d)
            == Ok(NewEntry(rules, PublishOp(publisher, version, d), d.templateId.value, version))
  {
    hide Admit, Publishable, Publishes, Lookup, Run, Decimal.Trim, HashText;
    AdmitIff(rules, publisher, version, d);
    AdmitMeans(rules, publisher, version, d);
    NeverPublished(rules, ops, d.templateId.value, version);
  }

  lemma FirstIsPublish(rules: Rules, ops: seq<Op>, k: nat, id: string, version: u32)
    requires FirstAt(rules, ops, k, id, version)
    ensures k < |ops| && ops[k].PublishOp?
  {
  }

  /** After that it is accepted if it is the same as the first one, which is returned as it stands, and
      refused as immutable otherwise. */
  lemma AgainAnswered(rules: Rules, ops: seq<Op>, k: nat, publisher: string, version: u32, d: Definition)
    requires Publishable(rules, publisher, version, d) && FirstAt(rules, ops, k, d.templateId.value, version)
    ensures ops[k].PublishOp?
    ensures var same := Decimal.Trim(ops[k].publisher) == Decimal.Trim(publisher) && ops[k].definition == d;
      PublishAnswer(rules, Run(rules, [], ops), publisher, version, d)
      == if same then Ok(Told(rules, ops, k, d.templateId.value, version)) else Err(VersionImmutable)
  {
    hide Admit, Publishable, Publishes, Lookup, Run, Decimal.Trim, HashText, WithdrawnAfter;
    AdmitIff(rules, publisher, version, d);
    AdmitMeans(rules, publisher, version, d);
    FirstIsPublish(rules, ops, k, d.templateId.value, version);
    History(rules, ops, k, d.templateId.value, version);
  }

  /** What was never published cannot be withdrawn or resolved. */
  lemma NothingAnswered(rules: Rules, ops: seq<Op>, publisher: string, id: string, version: u32, hash: string)
    requires forall k :: 0 <= k < |ops| ==> !Publishes(rules, ops[k], id, version)
    ensures Withdraw(Lookup(Run(rules, [], ops), id, version), publisher) == Err(NotFound)
    ensures Resolve(Lookup(Run(rules, [], ops), id, version), hash) == Err(NotFound)
  {
    hide Publishes, Lookup, Run;
    NeverPublished(rules, ops, id, version);
  }

  /** A version is withdrawn for its first publisher and nobody else, and what does not resolve is either
      withdrawn or named by another digest. */
  lemma PublishedAnswered(rules: Rules, ops: seq<Op>, k: nat, publisher: string, id: string, version: u32, hash: string)
    requires FirstAt(rules, ops, k, id, version)
    ensures ops[k].PublishOp?
    ensures Withdraw(Lookup(Run(rules, [], ops), id, version), publisher)
            == if Decimal.Trim(ops[k].publisher) == Decimal.Trim(publisher)
               then Ok(Told(rules, ops, k, id, version).(status := Revoked)) else Err(NotThePublisher)
    ensures Resolve(Lookup(Run(rules, [], ops), id, version), hash)
            == if WithdrawnAfter(ops, k, id, version) then Err(VersionRevoked)
               else if Stands(rules, ops, k, id, version, hash) then Ok(Told(rules, ops, k, id, version))
               else Err(HashMismatch)
  {
    hide Publishes, Lookup, Run, Decimal.Trim, HashText, WithdrawnAfter, Lower;
    FirstIsPublish(rules, ops, k, id, version);
    History(rules, ops, k, id, version);
    HashIsLower(rules, ops[k].definition);
  }

  predicate SameLetter(c: char, d: char) {
    c == d || ('A' <= c <= 'Z' && d as int == c as int + 32) || ('A' <= d <= 'Z' && c as int == d as int + 32)
  }

  lemma LetterIff(c: char, d: char)
    ensures LowerChar(c) == LowerChar(d) <==> SameLetter(c, d)
  {
  }

  /** Two texts agree in lower case if they are the same but for the case of ASCII letters. */
  lemma LowerIff(a: string, b: string)
    ensures Lower(a) == Lower(b) <==> |a| == |b| && forall i :: 0 <= i < |a| ==> SameLetter(a[i], b[i])
  {
    hide LowerChar, SameLetter;
    if |a| == |b| {
      forall i | 0 <= i < |a| ensures Lower(a)[i] == Lower(b)[i] <==> SameLetter(a[i], b[i]) {
        LetterIff(a[i], b[i]);
      }
    } else {
      assert |Lower(a)| != |Lower(b)|;
    }
  }
}
