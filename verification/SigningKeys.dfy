/**
 * Signing-key records and rotation (src/key_rotation.rs). The ISSUER_KEYS
 * namespace is a map from version name to stored record; listing it yields its
 * names in some order, which every statement below leaves arbitrary. Loading a
 * listed record may fail, and the source then goes on without it.
 */
module SigningKeys {
  import opened Common
  import opened Decimal

  datatype KeyStatus = Active | Deprecated | Revoked | Disabled

  datatype Record = Record(
    version: string,
    keyId: string,
    privateKeyEncrypted: Option<string>,
    publicKey: string,
    createdAt: int,
    expiresAt: int,
    status: KeyStatus,
    encrypted: bool)
  {
    predicate IsExpired(now: int) { now > expiresAt }

    predicate IsExpiringSoon(now: int) { Max(expiresAt - THIRTY_DAYS, I64_MIN) < now <= expiresAt }
  }

  const THIRTY_DAYS: int := 30 * 24 * 60 * 60
  const ONE_YEAR: int := 365 * 24 * 60 * 60

  /** A stored value: a record, or text that does not deserialise and is skipped on load. */
  datatype Stored = Loadable(rec: Record) | Unreadable

  type Kv = map<string, Stored>

  /** A listing names every stored key once. */
  predicate Lists(names: seq<string>, kv: Kv) {
    && (forall i | 0 <= i < |names| :: names[i] in kv)
    && (forall v | v in kv :: v in names)
    && (forall i, j | 0 <= i < j < |names| :: names[i] != names[j])
  }

  /** Loading `v` gives a record: the read does not fail this time, and what is stored deserialises. */
  predicate Loads(kv: Kv, failed: set<string>, v: string) {
    v in kv && v !in failed && kv[v].Loadable?
  }

  /** The records that load, in listing order; `failed` holds the names whose reads fail. */
  function LoadAll(kv: Kv, names: seq<string>, failed: set<string>): (keys: seq<Record>) {
    if names == [] then []
    else (if Loads(kv, failed, names[0]) then [kv[names[0]].rec] else []) + LoadAll(kv, names[1..], failed)
  }

  lemma LoadAllFrom(kv: Kv, names: seq<string>, failed: set<string>, i: nat)
    requires i < |names|
    ensures LoadAll(kv, names[i..], failed) ==
            (if Loads(kv, failed, names[i]) then [kv[names[i]].rec] else []) + LoadAll(kv, names[i + 1..], failed)
  {
    assert names[i..][1..] == names[i + 1..];
  }

  // ----- Listing -----

  /** One answer to a listing request: it fails, or names some keys and says whether and where to go on. */
  datatype Page = ListFailed | Page(keys: seq<string>, complete: bool, cursor: bool)

  function StripAll(keys: seq<string>, prefix: string): seq<string> {
    if keys == [] then []
    else (if prefix <= keys[0] then [keys[0][|prefix|..]] else []) + StripAll(keys[1..], prefix)
  }

  /** The names of a listing that answers with these pages, if none fails before the last one needed. */
  function Listed(pages: seq<Page>, prefix: string): Option<seq<string>> {
    if pages == [] || pages[0].ListFailed? then None
    else if pages[0].complete || !pages[0].cursor then Some(StripAll(pages[0].keys, prefix))
    else
      match Listed(pages[1..], prefix)
      case Some(names) => Some(StripAll(pages[0].keys, prefix) + names)
      case None => None
  }

  method ListVersions(pages: seq<Page>, prefix: string) returns (r: Option<seq<string>>)
    ensures r == Listed(pages, prefix)
  {
    var names: seq<string> := [];
    var i := 0;
    assert pages[0..] == pages;
    while i < |pages|
      invariant 0 <= i <= |pages|
      invariant Listed(pages, prefix).Some? <==> Listed(pages[i..], prefix).Some?
      invariant Listed(pages, prefix).Some? ==>
                Listed(pages, prefix).value == names + Listed(pages[i..], prefix).value
      decreases |pages| - i
    {
      var page := pages[i];
      assert pages[i..][1..] == pages[i + 1..];
      if page.ListFailed? {
        return None;
      }
      names := names + StripAll(page.keys, prefix);
      if page.complete || !page.cursor {
        return Some(names);
      }
      i := i + 1;
    }
    r := None;
  }

  /** All keys of the pages, in order. */
  function KeysOf(pages: seq<Page>): seq<string>
    requires forall i | 0 <= i < |pages| :: pages[i].Page?
  {
    if pages == [] then [] else pages[0].keys + KeysOf(pages[1..])
  }

  lemma {:induction false} StripConcat(a: seq<string>, b: seq<string>, prefix: string)
    ensures StripAll(a + b, prefix) == StripAll(a, prefix) + StripAll(b, prefix)
  {
    if a == [] {
      assert a + b == b;
    } else {
      assert (a + b)[1..] == a[1..] + b;
      StripConcat(a[1..], b, prefix);
    }
  }

  lemma {:induction false} StripIff(keys: seq<string>, prefix: string, name: string)
    ensures name in StripAll(keys, prefix) <==> prefix + name in keys
  {
    if keys != [] {
      StripIff(keys[1..], prefix, name);
      assert prefix <= keys[0] ==> keys[0] == prefix + keys[0][|prefix|..];
      assert (prefix + name)[|prefix|..] == name;
    }
  }

  /** Where a listing stops: after the first page that is complete or has no cursor. */
  predicate StopsAfter(pages: seq<Page>, n: nat) {
    && n < |pages|
    && (forall i | 0 <= i <= n :: pages[i].Page?)
    && (forall i | 0 <= i < n :: !pages[i].complete && pages[i].cursor)
    && (pages[n].complete || !pages[n].cursor)
  }

  /** A listing names exactly what the pages up to the stopping one name, across all of them. */
  lemma {:induction false} ListedIff(pages: seq<Page>, prefix: string, n: nat, name: string)
    requires StopsAfter(pages, n)
    ensures Listed(pages, prefix) == Some(StripAll(KeysOf(pages[..n + 1]), prefix))
    ensures name in Listed(pages, prefix).value <==> prefix + name in KeysOf(pages[..n + 1])
    decreases n
  {
    var upTo := pages[..n + 1];
    assert upTo[0] == pages[0];
    if n == 0 {
      assert upTo[1..] == [];
      assert pages[0].keys + [] == pages[0].keys;
    } else {
      assert upTo[1..] == pages[1..][..n];
      ListedIff(pages[1..], prefix, n - 1, name);
      StripConcat(pages[0].keys, KeysOf(upTo[1..]), prefix);
    }
    StripIff(KeysOf(upTo), prefix, name);
  }

  /** A listing fails exactly when no page stops it: one it gets to fails, or the answers run out. */
  lemma {:induction false} ListedNoneIff(pages: seq<Page>, prefix: string)
    ensures Listed(pages, prefix).None? <==> forall n: nat :: !StopsAfter(pages, n)
  {
    if pages != [] {
      ListedNoneIff(pages[1..], prefix);
      if pages[0].Page? {
        if pages[0].complete || !pages[0].cursor {
          assert StopsAfter(pages, 0);
        } else {
          forall n: nat
            ensures n > 0 ==> (StopsAfter(pages, n) <==> StopsAfter(pages[1..], n - 1))
          {
            if n > 0 {
              StopsOneLater(pages, n);
            }
          }
          if n: nat :| StopsAfter(pages[1..], n) {
            assert StopsAfter(pages, n + 1);
          }
        }
      }
    }
  }

  lemma StopsOneLater(pages: seq<Page>, n: nat)
    requires pages != [] && pages[0].Page? && !pages[0].complete && pages[0].cursor && n > 0
    ensures StopsAfter(pages, n) <==> StopsAfter(pages[1..], n - 1)
  {
    if StopsAfter(pages[1..], n - 1) {
      assert forall i | 1 <= i <= n :: pages[i] == pages[1..][i - 1];
    }
  }

  // ----- Version names -----

  /** The number of a version name: 'v' then anything Rust parses as u32. */
  function VersionNumber(name: string): Option<nat> {
    if |name| > 0 && name[0] == 'v' then ParseUnsigned(name[1..], U32_MAX) else None
  }

  /** A name has number n exactly when it is 'v' and a text for n that fits u32: padded with zeros or signed '+' too. */
  lemma VersionNumberIff(name: string, n: nat)
    ensures VersionNumber(name) == Some(n) <==>
            n <= U32_MAX && |name| > 0 && name[0] == 'v' && Spells(name[1..], n)
  {
    if |name| > 0 {
      ParseIff(name[1..], U32_MAX, n);
    }
  }

  function MaxVersion(keys: seq<Record>): u32 {
    if keys == [] then 0 else
      var m := MaxVersion(keys[..|keys| - 1]);
      match VersionNumber(keys[|keys| - 1].version)
      case Some(n) => Max(m, n)
      case None => m
  }

  function NextVersion(keys: seq<Record>): string {
    "v" + Print(SatAdd32(MaxVersion(keys), 1))
  }

  method NextVersionFromKeys(keys: seq<Record>) returns (v: string)
    ensures v == NextVersion(keys)
  {
    if keys == [] {
      return "v1";
    }
    var maxVersion: u32 := 0;
    for i := 0 to |keys|
      invariant maxVersion == MaxVersion(keys[..i])
    {
      assert keys[..i + 1][..i] == keys[..i];
      match VersionNumber(keys[i].version) {
        case Some(n) => maxVersion := Max(maxVersion, n);
        case None =>
      }
    }
    assert keys[..|keys|] == keys;
    v := "v" + Print(SatAdd32(maxVersion, 1));
  }

  lemma {:induction false} MaxVersionIsUpper(keys: seq<Record>, i: nat)
    requires i < |keys| && VersionNumber(keys[i].version).Some?
    ensures VersionNumber(keys[i].version).value <= MaxVersion(keys)
  {
    if i < |keys| - 1 {
      MaxVersionIsUpper(keys[..|keys| - 1], i);
    }
  }

  lemma {:induction false} MaxVersionIsReached(keys: seq<Record>) returns (i: nat)
    requires MaxVersion(keys) > 0
    ensures i < |keys| && VersionNumber(keys[i].version) == Some(MaxVersion(keys))
  {
    var n := |keys| - 1;
    if VersionNumber(keys[n].version) == Some(MaxVersion(keys)) {
      i := n;
    } else {
      i := MaxVersionIsReached(keys[..n]);
    }
  }

  lemma NumberOfPrinted(n: u32)
    ensures VersionNumber("v" + Print(n)) == Some(n)
  {
    ParseOfPrint(n, U32_MAX);
    assert ("v" + Print(n))[1..] == Print(n);
  }

  /** Records sit under their own version name; other text may be stored too. */
  ghost predicate WellStored(kv: Kv) {
    forall v | v in kv :: kv[v].Loadable? ==> kv[v].rec.version == v
  }

  /** No stored version has reached the largest u32. */
  ghost predicate Headroom(kv: Kv) {
    forall v | v in kv :: VersionNumber(v).Some? ==> VersionNumber(v).value < U32_MAX
  }

  /** What is loaded is what is listed, stored and readable. */
  lemma {:induction false} LoadedIff(kv: Kv, names: seq<string>, failed: set<string>, rec: Record)
    requires WellStored(kv)
    ensures rec in LoadAll(kv, names, failed) <==>
            rec.version in names && Loads(kv, failed, rec.version) && kv[rec.version].rec == rec
  {
    if names != [] {
      LoadedIff(kv, names[1..], failed, rec);
      assert rec.version in names <==> rec.version == names[0] || rec.version in names[1..];
    }
  }

  /** Loaded records come in listing order. */
  lemma {:induction false} LoadedInOrder(kv: Kv, names: seq<string>, failed: set<string>, i: nat, j: nat)
    requires WellStored(kv) && i < j < |LoadAll(kv, names, failed)|
    ensures var keys := LoadAll(kv, names, failed);
            exists a, b | 0 <= a < b < |names| :: names[a] == keys[i].version && names[b] == keys[j].version
  {
    var keys, rest := LoadAll(kv, names, failed), LoadAll(kv, names[1..], failed);
    var n := |keys| - |rest|;
    assert forall k | n <= k < |keys| :: keys[k] == rest[k - n];
    if i >= n {
      LoadedInOrder(kv, names[1..], failed, i - n, j - n);
      var a, b :| 0 <= a < b < |names[1..]| && names[1..][a] == keys[i].version && names[1..][b] == keys[j].version;
      assert names[a + 1] == keys[i].version && names[b + 1] == keys[j].version;
    } else {
      LoadedIff(kv, names[1..], failed, rest[j - n]);
      var b :| 0 <= b < |names[1..]| && names[1..][b] == keys[j].version;
      assert names[0] == keys[i].version && names[b + 1] == keys[j].version;
    }
  }

  lemma LoadedIsAtMostMax(kv: Kv, names: seq<string>, failed: set<string>, v: string)
    requires WellStored(kv) && Lists(names, kv) && Loads(kv, failed, v) && VersionNumber(v).Some?
    ensures VersionNumber(v).value <= MaxVersion(LoadAll(kv, names, failed))
  {
    LoadedIff(kv, names, failed, kv[v].rec);
    var keys := LoadAll(kv, names, failed);
    var i :| 0 <= i < |keys| && keys[i] == kv[v].rec;
    MaxVersionIsUpper(keys, i);
  }

  lemma MaxIsLoaded(kv: Kv, names: seq<string>, failed: set<string>) returns (v: string)
    requires WellStored(kv) && Lists(names, kv) && MaxVersion(LoadAll(kv, names, failed)) > 0
    ensures Loads(kv, failed, v) && VersionNumber(v) == Some(MaxVersion(LoadAll(kv, names, failed)))
  {
    var keys := LoadAll(kv, names, failed);
    var i := MaxVersionIsReached(keys);
    LoadedIff(kv, names, failed, keys[i]);
    v := keys[i].version;
  }

  /** `top` loads, and no stored version has a higher number. */
  ghost predicate IsHighest(kv: Kv, failed: set<string>, top: string) {
    && Loads(kv, failed, top) && VersionNumber(top).Some?
    && forall v | v in kv && VersionNumber(v).Some? :: VersionNumber(v).value <= VersionNumber(top).value
  }

  /** A record with the highest stored version number loads, if any name has a number. */
  ghost predicate HighestLoads(kv: Kv, failed: set<string>) {
    (forall v | v in kv :: VersionNumber(v).None?) || exists top :: IsHighest(kv, failed, top)
  }

  lemma StoredIsAtMostMax(kv: Kv, names: seq<string>, failed: set<string>, v: string)
    requires WellStored(kv) && Lists(names, kv) && HighestLoads(kv, failed) && v in kv && VersionNumber(v).Some?
    ensures VersionNumber(v).value <= MaxVersion(LoadAll(kv, names, failed))
  {
    var top :| IsHighest(kv, failed, top);
    LoadedIsAtMostMax(kv, names, failed, top);
  }

  /**
   * If the highest stored version loads and is below the largest u32, the next
   * version's number exceeds every stored one, and its name is new.
   */
  lemma NextVersionIsNew(kv: Kv, names: seq<string>, failed: set<string>)
    requires WellStored(kv) && Lists(names, kv) && HighestLoads(kv, failed) && Headroom(kv)
    ensures var next := NextVersion(LoadAll(kv, names, failed));
            && next !in kv
            && VersionNumber(next).Some?
            && forall v | v in kv :: VersionNumber(v).Some? ==> VersionNumber(v).value < VersionNumber(next).value
  {
    var m := MaxVersion(LoadAll(kv, names, failed));
    NumberOfPrinted(SatAdd32(m, 1));
    if m > 0 {
      var top := MaxIsLoaded(kv, names, failed);
    }
    forall v | v in kv && VersionNumber(v).Some?
      ensures VersionNumber(v).value <= m
    {
      StoredIsAtMostMax(kv, names, failed, v);
    }
  }

  /** Exactly when the new name collides, if the highest version loads: v4294967295 is stored. */
  lemma NextVersionCollidesIff(kv: Kv, names: seq<string>, failed: set<string>)
    requires WellStored(kv) && Lists(names, kv) && HighestLoads(kv, failed)
    ensures NextVersion(LoadAll(kv, names, failed)) in kv <==> "v" + Print(U32_MAX) in kv
  {
    var m := MaxVersion(LoadAll(kv, names, failed));
    var next := NextVersion(LoadAll(kv, names, failed));
    var last := "v" + Print(U32_MAX);
    NumberOfPrinted(U32_MAX);
    NumberOfPrinted(SatAdd32(m, 1));
    if last in kv {
      StoredIsAtMostMax(kv, names, failed, last);
    }
    if next in kv {
      StoredIsAtMostMax(kv, names, failed, next);
    }
  }

  /** If every version from n on fails to load but n - 1 loads, the next rotation takes the name of n again. */
  lemma FailedLoadReusesName(kv: Kv, names: seq<string>, failed: set<string>, n: u32)
    requires WellStored(kv) && Lists(names, kv)
    requires n >= 1 && (n == 1 || Loads(kv, failed, "v" + Print(n - 1)))
    requires forall v | Loads(kv, failed, v) && VersionNumber(v).Some? :: VersionNumber(v).value < n
    ensures NextVersion(LoadAll(kv, names, failed)) == "v" + Print(n)
  {
    var m := MaxVersion(LoadAll(kv, names, failed));
    if n > 1 {
      NumberOfPrinted(n - 1);
      LoadedIsAtMostMax(kv, names, failed, "v" + Print(n - 1));
    }
    if m > 0 {
      var top := MaxIsLoaded(kv, names, failed);
    }
    assert m == n - 1;
  }

  // ----- Rotation as a list of puts -----

  /** The puts of one rotation: the active keys deprecated in listing order, then the new key. */
  function Deprecations(keys: seq<Record>): (puts: seq<Record>) {
    if keys == [] then []
    else (if keys[0].status == Active then [keys[0].(status := Deprecated)] else []) + Deprecations(keys[1..])
  }

  lemma DeprecationsFrom(keys: seq<Record>, i: nat)
    requires i < |keys|
    ensures Deprecations(keys[i..]) ==
            (if keys[i].status == Active then [keys[i].(status := Deprecated)] else []) + Deprecations(keys[i + 1..])
  {
    assert keys[i..][1..] == keys[i + 1..];
  }

  function NewKey(keys: seq<Record>, now: int, publicKey: string, sealed: string): Record {
    var v := NextVersion(keys);
    Record(v, "provii:" + v, Some(sealed), publicKey, now, Min(now + ONE_YEAR, I64_MAX), Active, true)
  }

  function Put(kv: Kv, rec: Record): Kv { kv[rec.version := Loadable(rec)] }

  function PutAll(kv: Kv, puts: seq<Record>): Kv {
    if puts == [] then kv else Put(PutAll(kv, puts[..|puts| - 1]), puts[|puts| - 1])
  }

  lemma PutAllSnoc(kv: Kv, puts: seq<Record>, last: Record)
    ensures PutAll(kv, puts + [last]) == Put(PutAll(kv, puts), last)
  {
    assert (puts + [last])[..|puts|] == puts;
  }

  /**
   * One rotation attempt: what it listed, which loads failed, when it ran, which
   * key it made, and how many of its puts happened.
   */
  datatype Rotation = Rotation(
    names: seq<string>, failed: set<string>, now: int, publicKey: string, sealed: string, puts: nat)

  function Seen(kv: Kv, r: Rotation): seq<Record> { LoadAll(kv, r.names, r.failed) }

  /** The key the rotation makes, given the namespace it works on. */
  function MadeKey(kv: Kv, r: Rotation): Record { NewKey(Seen(kv, r), r.now, r.publicKey, r.sealed) }

  function PutsOf(kv: Kv, r: Rotation): seq<Record> { Deprecations(Seen(kv, r)) + [MadeKey(kv, r)] }

  predicate Legal(kv: Kv, r: Rotation) {
    Lists(r.names, kv) && r.puts <= |PutsOf(kv, r)|
  }

  predicate Complete(kv: Kv, r: Rotation) {
    Legal(kv, r) && r.puts == |PutsOf(kv, r)|
  }

  function Rotate(kv: Kv, r: Rotation): Kv
    requires Legal(kv, r)
  {
    PutAll(kv, PutsOf(kv, r)[..r.puts])
  }

  /** The rotation as the source runs it, against a namespace whose puts fail after `budget` successes. */
  class KeyRotationManager {
    var kv: Kv

    constructor (stored: Kv)
      ensures kv == stored
    {
      kv := stored;
    }

    /** A listing that fails is an error; a load that fails only leaves its record out. */
    method GetAllSigningKeys(pages: seq<Page>, prefix: string, failed: set<string>)
      returns (r: Result<seq<Record>, string>)
      ensures r == match Listed(pages, prefix)
                   case None => Err("Failed to list signing keys")
                   case Some(names) => Ok(LoadAll(kv, names, failed))
    {
      var listing := ListVersions(pages, prefix);
      if listing.None? {
        return Err("Failed to list signing keys");
      }
      var names := listing.value;
      var keys: seq<Record> := [];
      assert LoadAll(kv, [], failed) == [] && names[0..] == names;
      hide LoadAll;
      for i := 0 to |names|
        invariant LoadAll(kv, names, failed) == keys + LoadAll(kv, names[i..], failed)
      {
        LoadAllFrom(kv, names, failed, i);
        if Loads(kv, failed, names[i]) {
          keys := keys + [kv[names[i]].rec];
        }
      }
      assert names[|names|..] == [] && keys + [] == keys;
      r := Ok(keys);
    }

    /** Deprecate the active keys one put at a time, stopping at the first put that fails. */
    method DeprecateActive(keys: seq<Record>, budget: nat) returns (done: nat, ok: bool)
      modifies this
      ensures done == Min(budget, |Deprecations(keys)|)
      ensures ok <==> |Deprecations(keys)| <= budget
      ensures kv == PutAll(old(kv), Deprecations(keys)[..done])
    {
      ghost var puts := Deprecations(keys);
      ghost var stored: seq<Record> := [];
      done := 0;
      assert PutAll(kv, []) == kv && keys[0..] == keys && Deprecations([]) == [];
      hide PutAll, Deprecations, Put;
      for i := 0 to |keys|
        invariant done == |stored| <= budget
        invariant puts == stored + Deprecations(keys[i..])
        invariant kv == PutAll(old(kv), stored)
      {
        DeprecationsFrom(keys, i);
        if keys[i].status == Active {
          if done == budget {
            assert puts[..done] == stored;
            return done, false;
          }
          var put := keys[i].(status := Deprecated);
          PutAllSnoc(old(kv), stored, put);
          kv, stored, done := Put(kv, put), stored + [put], done + 1;
        }
      }
      assert keys[|keys|..] == [] && puts[..done] == stored;
      ok := true;
    }

    method RotateInner(pages: seq<Page>, prefix: string, failed: set<string>, now: int, publicKey: string,
                       sealed: string, budget: nat)
      returns (r: Result<Record, string>)
      requires Listed(pages, prefix).Some? ==> Lists(Listed(pages, prefix).value, kv)
      modifies this
      ensures Listed(pages, prefix).None? ==> kv == old(kv) && r == Err("Failed to list signing keys")
      ensures Listed(pages, prefix).Some? ==>
                var names := Listed(pages, prefix).value;
                var puts := PutsOf(old(kv), Rotation(names, failed, now, publicKey, sealed, 0));
                && kv == Rotate(old(kv), Rotation(names, failed, now, publicKey, sealed, Min(budget, |puts|)))
                && r == if budget >= |puts| then Ok(puts[|puts| - 1].(privateKeyEncrypted := None))
                        else if budget == |puts| - 1 then Err("Failed to store key")
                        else Err("Failed to update key")
      ensures r.Ok? ==>
                && r.value.version in kv && r.value.keyId == "provii:" + r.value.version
                && kv[r.value.version] == Loadable(r.value.(privateKeyEncrypted := Some(sealed)))
                && r.value == Record(r.value.version, r.value.keyId, None, publicKey, now,
                                     Min(now + 31_536_000, 0x7FFF_FFFF_FFFF_FFFF), Active, true)
    {
      hide Listed, LoadAll, Deprecations, PutAll, NextVersion;
      var existing := GetAllSigningKeys(pages, prefix, failed);
      if existing.Err? {
        return Err(existing.error);
      }
      var keys := existing.value;
      var version := NextVersionFromKeys(keys);
      var expiresAt := Min(now + ONE_YEAR, I64_MAX);
      var newKey := Record(version, "provii:" + version, None, publicKey, now, expiresAt, Active, true);
      var stored := newKey.(privateKeyEncrypted := Some(sealed));
      ghost var plan := Rotation(Listed(pages, prefix).value, failed, now, publicKey, sealed, 0);
      LastPut(kv, plan);
      var done, ok := DeprecateActive(keys, budget);
      if !ok {
        assert PutsOf(old(kv), plan)[..done] == Deprecations(keys)[..done];
        return Err("Failed to update key");
      }
      assert Deprecations(keys)[..done] == Deprecations(keys);
      if done == budget {
        return Err("Failed to store key");
      }
      kv := Put(kv, stored);
      r := Ok(newKey);
    }
  }

  /** A rotation's last put stores the new key, on top of all the deprecations. */
  lemma LastPut(kv: Kv, r: Rotation)
    ensures var puts := PutsOf(kv, r);
            && puts[..|puts| - 1] == Deprecations(Seen(kv, r))
            && puts[..|puts|] == puts
            && puts[|puts| - 1] == MadeKey(kv, r)
            && PutAll(kv, puts) == Put(PutAll(kv, Deprecations(Seen(kv, r))), MadeKey(kv, r))
  {
  }

  // ----- Selecting the signing key, and key health -----

  /** The key new credentials are signed with: the first listed one that is active and unexpired. */
  function ActiveSigningKey(keys: seq<Record>, now: int): Result<Record, string> {
    if keys == [] then Err("No active signing key found")
    else if keys[0].status == Active && !keys[0].IsExpired(now) then Ok(keys[0])
    else ActiveSigningKey(keys[1..], now)
  }

  /** A key is chosen exactly when some key is active and unexpired, and it is the first such. */
  lemma {:induction false} ChosenIsFirstUsable(keys: seq<Record>, now: int)
    ensures var r := ActiveSigningKey(keys, now);
            && (r.Err? <==> forall i | 0 <= i < |keys| :: keys[i].status != Active || now > keys[i].expiresAt)
            && (r.Ok? ==> exists i | 0 <= i < |keys| ::
                  && r.value == keys[i] && keys[i].status == Active && now <= keys[i].expiresAt
                  && forall j | 0 <= j < i :: keys[j].status != Active || now > keys[j].expiresAt)
  {
    if keys != [] {
      ChosenIsFirstUsable(keys[1..], now);
      var r := ActiveSigningKey(keys, now);
      if !(keys[0].status == Active && !keys[0].IsExpired(now)) && r.Ok? {
        var i :| 0 <= i < |keys[1..]| && r.value == keys[1..][i]
                 && keys[1..][i].status == Active && now <= keys[1..][i].expiresAt
                 && forall j | 0 <= j < i :: keys[1..][j].status != Active || now > keys[1..][j].expiresAt;
        forall j | 0 <= j < i + 1
          ensures keys[j].status != Active || now > keys[j].expiresAt
        {
          assert j > 0 ==> keys[j] == keys[1..][j - 1];
        }
        assert keys[i + 1] == keys[1..][i];
      }
    }
  }

  datatype KeyHealth = KeyHealth(
    hasExpiredActive: bool,
    hasExpiringSoon: bool,
    hasNoKeys: bool,
    hasNoActive: bool,
    hasMultipleActive: bool,
    daysUntilExpiration: Option<int>)
  {
    predicate IsHealthy() { !hasExpiredActive && !hasNoKeys && !hasNoActive && !hasMultipleActive }

    predicate IsCritical() { hasExpiredActive || hasNoKeys || hasNoActive }
  }

  function ActiveCount(keys: seq<Record>): nat {
    if keys == [] then 0
    else ActiveCount(keys[..|keys| - 1]) + if keys[|keys| - 1].status == Active then 1 else 0
  }

  lemma {:induction false} NoneActiveIff(keys: seq<Record>)
    ensures ActiveCount(keys) == 0 <==> forall i | 0 <= i < |keys| :: keys[i].status != Active
  {
    if keys != [] {
      NoneActiveIff(keys[..|keys| - 1]);
    }
  }

  predicate ExpiringActive(key: Record, now: int) { key.status == Active && key.IsExpiringSoon(now) }

  /** The whole days left to the last listed active key that is about to expire. */
  ghost predicate IsDaysLeft(keys: seq<Record>, now: int, days: int) {
    exists i | 0 <= i < |keys| ::
      && ExpiringActive(keys[i], now)
      && days * 86_400 <= keys[i].expiresAt - now < (days + 1) * 86_400
      && forall j | i < j < |keys| :: !ExpiringActive(keys[j], now)
  }

  lemma DaysLeftSnoc(keys: seq<Record>, last: Record, now: int, days: int)
    requires if ExpiringActive(last, now) then days == (last.expiresAt - now) / 86_400 else IsDaysLeft(keys, now, days)
    ensures IsDaysLeft(keys + [last], now, days)
  {
    var all := keys + [last];
    if ExpiringActive(last, now) {
      assert all[|keys|] == last;
    } else {
      var i :| 0 <= i < |keys| && ExpiringActive(keys[i], now)
               && days * 86_400 <= keys[i].expiresAt - now < (days + 1) * 86_400
               && forall j | i < j < |keys| :: !ExpiringActive(keys[j], now);
      assert all[i] == keys[i];
    }
  }

  method CheckKeyHealth(keys: seq<Record>, now: int) returns (health: KeyHealth)
    ensures health.hasExpiredActive <==>
            exists i | 0 <= i < |keys| :: keys[i].status == Active && now > keys[i].expiresAt
    ensures health.hasExpiringSoon <==>
            exists i | 0 <= i < |keys| ::
              keys[i].status == Active && now <= keys[i].expiresAt
              && (now > keys[i].expiresAt - 2_592_000 && now > -0x8000_0000_0000_0000)
    ensures health.hasExpiringSoon <==> health.daysUntilExpiration.Some?
    ensures health.hasExpiringSoon ==> IsDaysLeft(keys, now, health.daysUntilExpiration.value)
    ensures health.hasNoKeys <==> keys == []
    ensures health.hasNoActive <==> ActiveCount(keys) == 0
    ensures health.hasMultipleActive <==> ActiveCount(keys) > 1
    ensures health.IsHealthy() <==> Healthy(keys, now)
    ensures health.IsCritical() <==>
            || (forall i | 0 <= i < |keys| :: keys[i].status != Active)
            || (exists i | 0 <= i < |keys| :: keys[i].status == Active && keys[i].IsExpired(now))
  {
    hide IsDaysLeft;
    health := KeyHealth(false, false, false, false, false, None);
    var active := 0;
    for i := 0 to |keys|
      invariant active == ActiveCount(keys[..i])
      invariant health.hasExpiredActive <==>
                exists j | 0 <= j < i :: keys[j].status == Active && keys[j].IsExpired(now)
      invariant health.hasExpiringSoon <==> exists j | 0 <= j < i :: ExpiringActive(keys[j], now)
      invariant health.hasExpiringSoon <==> health.daysUntilExpiration.Some?
      invariant health.hasExpiringSoon ==> IsDaysLeft(keys[..i], now, health.daysUntilExpiration.value)
    {
      assert keys[..i + 1] == keys[..i] + [keys[i]];
      if keys[i].status == Active {
        active := active + 1;
        if keys[i].IsExpired(now) {
          health := health.(hasExpiredActive := true);
        } else if keys[i].IsExpiringSoon(now) {
          health := health.(hasExpiringSoon := true, daysUntilExpiration := Some((keys[i].expiresAt - now) / 86_400));
        }
      }
      if health.hasExpiringSoon {
        DaysLeftSnoc(keys[..i], keys[i], now, health.daysUntilExpiration.value);
      }
    }
    assert keys[..|keys|] == keys;
    NoneActiveIff(keys);
    health := health.(hasNoKeys := keys == [], hasNoActive := active == 0, hasMultipleActive := active > 1);
  }

  // ----- What a rotation, complete or cut short, does to the namespace -----

  function ActiveVersions(kv: Kv): set<string> {
    set v | v in kv && kv[v].Loadable? && kv[v].rec.status == Active
  }

  /** A record keeps everything but its status, which may only go from Active to Deprecated. */
  predicate RecordEvolves(a: Record, b: Record) {
    b == a || (a.status == Active && b == a.(status := Deprecated))
  }

  predicate StoredEvolves(a: Stored, b: Stored) {
    a == b || (a.Loadable? && b.Loadable? && RecordEvolves(a.rec, b.rec))
  }

  /** Nothing stored is lost, and nothing changes but by deprecation. */
  ghost predicate Evolves(kv: Kv, kv': Kv) {
    && WellStored(kv) && WellStored(kv')
    && forall v | v in kv :: v in kv' && StoredEvolves(kv[v], kv'[v])
  }

  /** Each put deprecates a stored active record. */
  ghost predicate DeprecatesStored(kv: Kv, puts: seq<Record>) {
    forall i | 0 <= i < |puts| ::
      && puts[i].version in kv && kv[puts[i].version].Loadable?
      && kv[puts[i].version].rec.status == Active
      && puts[i] == kv[puts[i].version].rec.(status := Deprecated)
  }

  ghost predicate Names(puts: seq<Record>, v: string) {
    exists i | 0 <= i < |puts| :: puts[i].version == v
  }

  /** The deprecations are of exactly the active records that load. */
  lemma {:induction false} DeprecationsOf(kv: Kv, names: seq<string>, failed: set<string>)
    requires WellStored(kv)
    ensures DeprecatesStored(kv, Deprecations(LoadAll(kv, names, failed)))
    ensures forall v :: Names(Deprecations(LoadAll(kv, names, failed)), v) <==>
                        v in names && Loads(kv, failed, v) && kv[v].rec.status == Active
  {
    if names != [] {
      DeprecationsOf(kv, names[1..], failed);
      var all, rest := Deprecations(LoadAll(kv, names, failed)), Deprecations(LoadAll(kv, names[1..], failed));
      DeprecationsHead(kv, names, failed);
      forall v
        ensures Names(all, v) <==> Names(HeadPut(kv, names[0], failed), v) || Names(rest, v)
      {
        NamesConcat(HeadPut(kv, names[0], failed), rest, v);
      }
      assert forall v :: v in names <==> v == names[0] || v in names[1..];
      hide LoadAll, Deprecations;
    }
  }

  lemma DeprecationsHead(kv: Kv, names: seq<string>, failed: set<string>)
    requires names != []
    ensures Deprecations(LoadAll(kv, names, failed)) ==
            HeadPut(kv, names[0], failed) + Deprecations(LoadAll(kv, names[1..], failed))
  {
    var rest := LoadAll(kv, names[1..], failed);
    if Loads(kv, failed, names[0]) {
      assert ([kv[names[0]].rec] + rest)[1..] == rest;
    } else {
      assert [] + rest == rest;
    }
  }

  function HeadPut(kv: Kv, name: string, failed: set<string>): (puts: seq<Record>)
    ensures puts == [] <==> !(Loads(kv, failed, name) && kv[name].rec.status == Active)
    ensures puts != [] ==> puts == [kv[name].rec.(status := Deprecated)]
  {
    if Loads(kv, failed, name) && kv[name].rec.status == Active then [kv[name].rec.(status := Deprecated)] else []
  }

  lemma NamesConcat(a: seq<Record>, b: seq<Record>, v: string)
    ensures Names(a + b, v) <==> Names(a, v) || Names(b, v)
  {
    if Names(a, v) {
      var i :| 0 <= i < |a| && a[i].version == v;
      assert (a + b)[i].version == v;
    }
    if Names(b, v) {
      var i :| 0 <= i < |b| && b[i].version == v;
      assert (a + b)[|a| + i].version == v;
    }
  }

  lemma {:induction false} EffectOfDeprecations(kv: Kv, puts: seq<Record>)
    requires WellStored(kv) && DeprecatesStored(kv, puts)
    ensures PutAll(kv, puts).Keys == kv.Keys
    ensures forall v | v in kv ::
              if Names(puts, v)
              then kv[v].Loadable? && PutAll(kv, puts)[v] == Loadable(kv[v].rec.(status := Deprecated))
              else PutAll(kv, puts)[v] == kv[v]
  {
    if puts != [] {
      var n := |puts| - 1;
      EffectOfDeprecations(kv, puts[..n]);
      assert puts == puts[..n] + [puts[n]];
      forall v | v in kv
        ensures Names(puts, v) <==> Names(puts[..n], v) || puts[n].version == v
      {
        NamesConcat(puts[..n], [puts[n]], v);
      }
    }
  }

  lemma DeprecationsEvolve(kv: Kv, puts: seq<Record>)
    requires WellStored(kv) && DeprecatesStored(kv, puts)
    ensures Evolves(kv, PutAll(kv, puts))
    ensures PutAll(kv, puts).Keys == kv.Keys && ActiveVersions(PutAll(kv, puts)) <= ActiveVersions(kv)
  {
    EffectOfDeprecations(kv, puts);
    hide PutAll, Names;
    forall v | v in kv && Names(puts, v)
      ensures kv[v].Loadable? && kv[v].rec.status == Active
    {
      NamedIsActive(kv, puts, v);
    }
  }

  lemma NamedIsActive(kv: Kv, puts: seq<Record>, v: string)
    requires DeprecatesStored(kv, puts) && Names(puts, v)
    ensures v in kv && kv[v].Loadable? && kv[v].rec.status == Active
  {
    var i :| 0 <= i < |puts| && puts[i].version == v;
  }

  lemma DeprecatesPrefix(kv: Kv, r: Rotation, n: nat)
    requires WellStored(kv) && n <= |Deprecations(Seen(kv, r))|
    ensures DeprecatesStored(kv, Deprecations(Seen(kv, r))[..n])
  {
    hide LoadAll, Deprecations, Names;
    DeprecationsOf(kv, r.names, r.failed);
  }

  /** A rotation cut short only deprecates, whatever it failed to load. */
  lemma PartialRotation(kv: Kv, r: Rotation)
    requires WellStored(kv) && Legal(kv, r) && !Complete(kv, r)
    ensures Evolves(kv, Rotate(kv, r))
    ensures Rotate(kv, r).Keys == kv.Keys && ActiveVersions(Rotate(kv, r)) <= ActiveVersions(kv)
  {
    hide Seen, Deprecations, PutAll, Evolves, ActiveVersions, WellStored, MadeKey, Names, DeprecatesStored;
    var olds := Deprecations(Seen(kv, r));
    DeprecatesPrefix(kv, r, r.puts);
    assert PutsOf(kv, r)[..r.puts] == olds[..r.puts];
    DeprecationsEvolve(kv, olds[..r.puts]);
  }

  /** After all deprecations the active keys left are those that failed to load. */
  lemma AllDeprecated(kv: Kv, r: Rotation)
    requires WellStored(kv) && Lists(r.names, kv)
    ensures var kv' := PutAll(kv, Deprecations(Seen(kv, r)));
            Evolves(kv, kv') && kv'.Keys == kv.Keys && ActiveVersions(kv') == ActiveVersions(kv) * r.failed
  {
    DeprecationsOf(kv, r.names, r.failed);
    var puts := Deprecations(Seen(kv, r));
    DeprecationsEvolve(kv, puts);
    EffectOfDeprecations(kv, puts);
    hide PutAll, Deprecations, LoadAll, Names, DeprecatesStored;
    forall v | v in kv
      ensures v in ActiveVersions(PutAll(kv, puts)) <==> v in ActiveVersions(kv) && v in r.failed
    {
      assert Names(puts, v) <==> Loads(kv, r.failed, v) && kv[v].rec.status == Active;
    }
  }

  lemma AddActive(kv: Kv, key: Record)
    requires WellStored(kv) && key.status == Active
    ensures WellStored(Put(kv, key)) && ActiveVersions(Put(kv, key)) == ActiveVersions(kv) + {key.version}
    ensures key.version !in kv ==> Evolves(kv, Put(kv, key))
  {
    var kv' := Put(kv, key);
    assert forall v | v in kv && v != key.version :: kv'[v] == kv[v];
  }

  /**
   * A complete rotation stores its new key under the name it computed; besides
   * it, exactly the active keys whose load failed stay active.
   */
  lemma CompleteRotation(kv: Kv, r: Rotation)
    requires WellStored(kv) && Complete(kv, r)
    ensures WellStored(Rotate(kv, r)) && Rotate(kv, r).Keys == kv.Keys + {MadeKey(kv, r).version}
    ensures Rotate(kv, r)[MadeKey(kv, r).version] == Loadable(MadeKey(kv, r))
    ensures ActiveVersions(Rotate(kv, r)) == {MadeKey(kv, r).version} + ActiveVersions(kv) * r.failed
    ensures MadeKey(kv, r).version !in kv ==> Evolves(kv, Rotate(kv, r))
  {
    hide Seen, Deprecations, PutAll, NextVersion;
    LastPut(kv, r);
    AllDeprecated(kv, r);
    var kv' := PutAll(kv, Deprecations(Seen(kv, r)));
    AddActive(kv', MadeKey(kv, r));
    if MadeKey(kv, r).version !in kv {
      EvolvesTransitive(kv, kv', Rotate(kv, r));
    }
  }

  /** At most one key is active after a complete rotation exactly when every other active record had loaded. */
  lemma OneActiveIff(kv: Kv, r: Rotation)
    requires WellStored(kv) && Complete(kv, r)
    ensures |ActiveVersions(Rotate(kv, r))| <= 1 <==> ActiveVersions(kv) * r.failed <= {MadeKey(kv, r).version}
  {
    CompleteRotation(kv, r);
    hide MadeKey, Rotate, ActiveVersions;
    AtMostOne(MadeKey(kv, r).version, ActiveVersions(kv) * r.failed);
  }

  lemma AtMostOne(name: string, others: set<string>)
    ensures |{name} + others| <= 1 <==> others <= {name}
  {
    if others <= {name} {
      assert {name} + others == {name};
    } else {
      var v :| v in others && v != name;
      SubsetCardinality({name, v}, {name} + others);
    }
  }

  /** The name of the new key is not stored yet; vacuous for a rotation cut short. */
  predicate NameIsFree(kv: Kv, r: Rotation) {
    Complete(kv, r) ==> MadeKey(kv, r).version !in kv
  }

  /** The keypair is new: no stored record has its public key. */
  predicate FreshKey(kv: Kv, r: Rotation) {
    forall v | v in kv :: kv[v].Loadable? ==> kv[v].rec.publicKey != r.publicKey
  }

  lemma RotationSafe(kv: Kv, r: Rotation)
    requires WellStored(kv) && Legal(kv, r) && NameIsFree(kv, r)
    ensures Evolves(kv, Rotate(kv, r))
  {
    hide Rotate, MadeKey;
    if Complete(kv, r) {
      CompleteRotation(kv, r);
    } else {
      PartialRotation(kv, r);
    }
  }

  /** A rotation keeps every stored key exactly when the name it takes is free. */
  lemma RotationEvolvesIff(kv: Kv, r: Rotation)
    requires WellStored(kv) && Legal(kv, r) && FreshKey(kv, r)
    ensures Evolves(kv, Rotate(kv, r)) <==> NameIsFree(kv, r)
  {
    hide Seen, Rotate, NextVersion;
    if Complete(kv, r) {
      CompleteRotation(kv, r);
    } else {
      PartialRotation(kv, r);
    }
  }

  /**
   * A load that fails can cost a key: if version n is stored, n - 1 is the
   * highest that loads, and the rotation completes, the record of n is replaced.
   */
  lemma FailedLoadReplacesKey(kv: Kv, r: Rotation, n: u32)
    requires WellStored(kv) && Complete(kv, r) && "v" + Print(n) in kv
    requires n >= 1 && (n == 1 || Loads(kv, r.failed, "v" + Print(n - 1)))
    requires forall v | Loads(kv, r.failed, v) && VersionNumber(v).Some? :: VersionNumber(v).value < n
    ensures "v" + Print(n) in Rotate(kv, r) && Rotate(kv, r)["v" + Print(n)] == Loadable(MadeKey(kv, r))
    ensures FreshKey(kv, r) ==> !Evolves(kv, Rotate(kv, r))
  {
    FailedLoadReusesName(kv, r.names, r.failed, n);
    CompleteRotation(kv, r);
    if FreshKey(kv, r) {
      RotationEvolvesIff(kv, r);
    }
  }

  // ----- Whole histories -----

  /**
   * `kvs` is the namespace through a history of rotations, each complete or cut
   * short after any of its puts, and each with any of its loads failing.
   */
  ghost predicate History(kvs: seq<Kv>, h: seq<Rotation>) {
    && |kvs| == |h| + 1
    && forall i {:trigger h[i]} | 0 <= i < |h| :: Legal(kvs[i], h[i]) && kvs[i + 1] == Rotate(kvs[i], h[i])
  }

  lemma {:induction false} PutAllKeeps(kv: Kv, puts: seq<Record>)
    ensures kv.Keys <= PutAll(kv, puts).Keys
    ensures WellStored(kv) ==> WellStored(PutAll(kv, puts))
  {
    if puts != [] {
      PutAllKeeps(kv, puts[..|puts| - 1]);
    }
  }

  lemma RotateKeeps(kv: Kv, r: Rotation)
    requires Legal(kv, r)
    ensures kv.Keys <= Rotate(kv, r).Keys
    ensures WellStored(kv) ==> WellStored(Rotate(kv, r))
  {
    PutAllKeeps(kv, PutsOf(kv, r)[..r.puts]);
  }

  lemma {:induction false} HistoryKeeps(kvs: seq<Kv>, h: seq<Rotation>, i: nat, j: nat)
    requires History(kvs, h) && i <= j <= |h|
    ensures kvs[i].Keys <= kvs[j].Keys
    ensures WellStored(kvs[i]) ==> WellStored(kvs[j])
  {
    hide Rotate, Legal, WellStored;
    if i < j {
      HistoryKeeps(kvs, h, i, j - 1);
      RotateKeeps(kvs[j - 1], h[j - 1]);
    }
  }

  lemma EvolvesTransitive(a: Kv, b: Kv, c: Kv)
    requires Evolves(a, b) && Evolves(b, c)
    ensures Evolves(a, c)
  {
  }

  /**
   * Over any history in which each completed rotation takes a free name, no
   * stored version disappears and no record changes but by deprecation.
   */
  lemma {:induction false} HistorySafe(kvs: seq<Kv>, h: seq<Rotation>, i: nat)
    requires History(kvs, h) && WellStored(kvs[0]) && i <= |h|
    requires forall k {:trigger h[k]} | 0 <= k < i :: NameIsFree(kvs[k], h[k])
    ensures Evolves(kvs[0], kvs[i])
  {
    if i > 0 {
      HistorySafe(kvs, h, i - 1);
      RotationSafe(kvs[i - 1], h[i - 1]);
      hide Rotate, Legal, NameIsFree;
      EvolvesTransitive(kvs[0], kvs[i - 1], kvs[i]);
    }
  }

  ghost predicate StepEvolves(kvs: seq<Kv>, k: nat)
    requires k + 1 < |kvs|
  {
    Evolves(kvs[k], kvs[k + 1])
  }

  /** In particular if every rotation loads the highest stored version, and none has reached the largest u32. */
  lemma HistorySafeIfHighestLoads(kvs: seq<Kv>, h: seq<Rotation>, i: nat)
    requires History(kvs, h) && WellStored(kvs[0]) && i <= |h|
    requires forall k {:trigger h[k]} | 0 <= k < i :: HighestLoads(kvs[k], h[k].failed) && Headroom(kvs[k])
    ensures Evolves(kvs[0], kvs[i])
  {
    hide Rotate, HighestLoads, Headroom, WellStored, Evolves, NextVersion, LoadAll;
    forall k {:trigger h[k]} | 0 <= k < i
      ensures NameIsFree(kvs[k], h[k])
    {
      HistoryKeeps(kvs, h, 0, k);
      NextVersionIsNew(kvs[k], h[k].names, h[k].failed);
    }
    HistorySafe(kvs, h, i);
  }

  predicate AllReadable(kv: Kv) { forall v | v in kv :: kv[v].Loadable? }

  predicate NumbersUpTo(kv: Kv, m: nat) {
    forall v | v in kv && VersionNumber(v).Some? :: VersionNumber(v).value <= m
  }

  lemma HighestLoadsIfAll(kv: Kv, names: seq<string>)
    requires WellStored(kv) && AllReadable(kv) && Lists(names, kv)
    ensures HighestLoads(kv, {})
  {
    if v :| v in kv && VersionNumber(v).Some? {
      forall u | u in kv && VersionNumber(u).Some?
        ensures VersionNumber(u).value <= MaxVersion(LoadAll(kv, names, {}))
      {
        LoadedIsAtMostMax(kv, names, {}, u);
      }
      var top := v;
      if MaxVersion(LoadAll(kv, names, {})) > 0 {
        top := MaxIsLoaded(kv, names, {});
      }
      assert IsHighest(kv, {}, top);
    }
  }

  lemma MadeNumber(kv: Kv, r: Rotation, m: nat)
    requires WellStored(kv) && Lists(r.names, kv) && NumbersUpTo(kv, m) && m < U32_MAX
    ensures VersionNumber(MadeKey(kv, r).version).Some? && VersionNumber(MadeKey(kv, r).version).value <= m + 1
  {
    var max := MaxVersion(Seen(kv, r));
    NumberOfPrinted(SatAdd32(max, 1));
    if max > 0 {
      var top := MaxIsLoaded(kv, r.names, r.failed);
    }
  }

  /** A rotation stores only readable records and raises the highest number by one at most. */
  lemma RotateNumbers(kv: Kv, r: Rotation, m: nat)
    requires WellStored(kv) && AllReadable(kv) && Legal(kv, r) && NumbersUpTo(kv, m) && m < U32_MAX
    ensures AllReadable(Rotate(kv, r)) && NumbersUpTo(Rotate(kv, r), m + 1)
  {
    MadeNumber(kv, r, m);
    AllReadableKept(kv, PutsOf(kv, r)[..r.puts]);
    hide Rotate, MadeKey, VersionNumber, Evolves, ActiveVersions;
    if Complete(kv, r) {
      CompleteRotation(kv, r);
    } else {
      PartialRotation(kv, r);
    }
    assert Rotate(kv, r).Keys <= kv.Keys + {MadeKey(kv, r).version};
    forall v | v in Rotate(kv, r) && VersionNumber(v).Some?
      ensures VersionNumber(v).value <= m + 1
    {
      assert v in kv || v == MadeKey(kv, r).version;
    }
  }

  lemma {:induction false} AllReadableKept(kv: Kv, puts: seq<Record>)
    requires AllReadable(kv)
    ensures AllReadable(PutAll(kv, puts))
  {
    if puts != [] {
      AllReadableKept(kv, puts[..|puts| - 1]);
    }
  }

  lemma {:induction false} NumbersGrow(kvs: seq<Kv>, h: seq<Rotation>, m: nat, i: nat)
    requires History(kvs, h) && WellStored(kvs[0]) && i <= |h|
    requires AllReadable(kvs[0]) && NumbersUpTo(kvs[0], m) && m + |h| <= U32_MAX
    ensures AllReadable(kvs[i]) && NumbersUpTo(kvs[i], m + i)
  {
    if i > 0 {
      NumbersGrow(kvs, h, m, i - 1);
      HistoryKeeps(kvs, h, 0, i - 1);
      hide WellStored, AllReadable, NumbersUpTo, Rotate, Legal;
      RotateNumbers(kvs[i - 1], h[i - 1], m + i - 1);
    }
  }

  /**
   * Asking only for the start and the loads: from readable records whose numbers
   * leave room for the rotations to come, and if no load ever fails, no key is
   * lost or altered but by deprecation, and active keys stay within bounds.
   */
  lemma HistorySafeIfAllLoads(kvs: seq<Kv>, h: seq<Rotation>, m: nat, i: nat)
    requires History(kvs, h) && WellStored(kvs[0]) && i <= |h|
    requires AllReadable(kvs[0]) && NumbersUpTo(kvs[0], m) && m + |h| <= U32_MAX
    requires forall k | 0 <= k < |h| :: h[k].failed == {}
    ensures Evolves(kvs[0], kvs[i])
    ensures |ActiveVersions(kvs[i])| <= Max(|ActiveVersions(kvs[0])|, 1)
  {
    hide Rotate, HighestLoads, WellStored, Evolves, ActiveVersions, AllReadable;
    forall k {:trigger h[k]} | 0 <= k < i
      ensures HighestLoads(kvs[k], h[k].failed) && Headroom(kvs[k])
    {
      NumbersGrow(kvs, h, m, k);
      HistoryKeeps(kvs, h, 0, k);
      HighestLoadsIfAll(kvs[k], h[k].names);
    }
    HistorySafeIfHighestLoads(kvs, h, i);
    HistoryActiveBounded(kvs, h, i);
  }

  /** With new keypairs that condition is exact, rotation by rotation. */
  lemma HistorySafeIff(kvs: seq<Kv>, h: seq<Rotation>)
    requires History(kvs, h) && WellStored(kvs[0])
    requires forall k {:trigger h[k]} | 0 <= k < |h| :: FreshKey(kvs[k], h[k])
    ensures (forall k | 0 <= k < |h| :: StepEvolves(kvs, k)) <==>
            (forall k {:trigger h[k]} | 0 <= k < |h| :: NameIsFree(kvs[k], h[k]))
  {
    hide Rotate, NameIsFree, FreshKey, Evolves;
    forall k | 0 <= k < |h|
      ensures StepEvolves(kvs, k) <==> NameIsFree(kvs[k], h[k])
    {
      HistoryKeeps(kvs, h, 0, k);
      RotationEvolvesIff(kvs[k], h[k]);
    }
  }

  /** If every completed rotation loads all active records, there are never more than at the start, or one. */
  lemma {:induction false} HistoryActiveBounded(kvs: seq<Kv>, h: seq<Rotation>, i: nat)
    requires History(kvs, h) && WellStored(kvs[0]) && i <= |h|
    requires forall k {:trigger h[k]} | 0 <= k < i ::
               Complete(kvs[k], h[k]) ==> ActiveVersions(kvs[k]) * h[k].failed == {}
    ensures |ActiveVersions(kvs[i])| <= Max(|ActiveVersions(kvs[0])|, 1)
  {
    if i > 0 {
      HistoryActiveBounded(kvs, h, i - 1);
      HistoryKeeps(kvs, h, 0, i - 1);
      var kv, r := kvs[i - 1], h[i - 1];
      hide Rotate, Legal, MadeKey, ActiveVersions;
      if Complete(kv, r) {
        CompleteRotation(kv, r);
        assert ActiveVersions(kvs[i]) == {MadeKey(kv, r).version};
      } else {
        PartialRotation(kv, r);
        SubsetCardinality(ActiveVersions(kvs[i]), ActiveVersions(kv));
      }
    }
  }

  /**
   * A version stored by a completed rotation has a smaller number than any
   * version planned later, if the later rotation loads the highest version.
   */
  lemma VersionsIncrease(kvs: seq<Kv>, h: seq<Rotation>, i: nat, j: nat)
    requires History(kvs, h) && WellStored(kvs[0])
    requires i < j < |h| && Complete(kvs[i], h[i])
    requires HighestLoads(kvs[j], h[j].failed) && Headroom(kvs[j])
    ensures var a := VersionNumber(MadeKey(kvs[i], h[i]).version);
            var b := VersionNumber(MadeKey(kvs[j], h[j]).version);
            a.Some? && b.Some? && a.value < b.value
  {
    MadeIsStored(kvs, h, i, j);
    hide Rotate, LoadAll, MaxVersion, VersionNumber, Deprecations, HighestLoads, Headroom, WellStored;
    NumberOfPrinted(SatAdd32(MaxVersion(Seen(kvs[i], h[i])), 1));
    NextVersionIsNew(kvs[j], h[j].names, h[j].failed);
  }

  lemma MadeIsStored(kvs: seq<Kv>, h: seq<Rotation>, i: nat, j: nat)
    requires History(kvs, h) && WellStored(kvs[0]) && i < j < |h| && Complete(kvs[i], h[i])
    ensures MadeKey(kvs[i], h[i]).version in kvs[j] && WellStored(kvs[j]) && Legal(kvs[j], h[j])
  {
    hide Rotate, MadeKey, WellStored, Legal, Evolves, ActiveVersions;
    HistoryKeeps(kvs, h, 0, i);
    HistoryKeeps(kvs, h, 0, j);
    HistoryKeeps(kvs, h, i + 1, j);
    CompleteRotation(kvs[i], h[i]);
    assert h[j] in h;
  }

  // ----- A complete rotation repairs whatever came before -----

  lemma {:induction false} OnlyActiveIsChosen(keys: seq<Record>, at: nat, now: int)
    requires at < |keys| ==> keys[at].status == Active && !keys[at].IsExpired(now)
    requires forall i | 0 <= i < |keys| :: i != at ==> keys[i].status != Active
    ensures ActiveSigningKey(keys, now) == if at < |keys| then Ok(keys[at]) else Err("No active signing key found")
    decreases |keys|
  {
    if keys != [] && at > 0 {
      OnlyActiveIsChosen(keys[1..], at - 1, now);
    }
  }

  lemma {:induction false} CountOfOneActive(keys: seq<Record>, at: nat)
    requires forall i | 0 <= i < |keys| :: keys[i].status == Active <==> i == at
    ensures ActiveCount(keys) == if at < |keys| then 1 else 0
  {
    if keys != [] {
      CountOfOneActive(keys[..|keys| - 1], at);
    }
  }

  /** What `CheckKeyHealth` reports as healthy. */
  ghost predicate Healthy(keys: seq<Record>, now: int) {
    && keys != [] && ActiveCount(keys) == 1
    && forall i | 0 <= i < |keys| :: keys[i].status == Active ==> !keys[i].IsExpired(now)
  }

  /**
   * After any history, whatever was cut short or replaced in it, a complete
   * rotation leaves its new key as the only active one exactly when every other
   * active record loaded. Until that key expires it is then the one chosen, and
   * key health is good, exactly when its own record loads.
   */
  lemma CompleteRotationRecovers(kvs: seq<Kv>, h: seq<Rotation>, r: Rotation,
                                 listing: seq<string>, failed: set<string>, now: int)
    requires History(kvs, h) && WellStored(kvs[0]) && Complete(kvs[|h|], r)
    requires Lists(listing, Rotate(kvs[|h|], r))
    requires now <= Min(r.now + ONE_YEAR, I64_MAX)
    ensures var key, after := MadeKey(kvs[|h|], r), Rotate(kvs[|h|], r);
            && (ActiveVersions(after) == {key.version} <==> ActiveVersions(kvs[|h|]) * r.failed <= {key.version})
            && (ActiveVersions(after) == {key.version} ==>
                  && ActiveSigningKey(LoadAll(after, listing, failed), now) ==
                     (if key.version in failed then Err("No active signing key found") else Ok(key))
                  && (Healthy(LoadAll(after, listing, failed), now) <==> key.version !in failed))
  {
    var key, after := MadeKey(kvs[|h|], r), Rotate(kvs[|h|], r);
    HistoryKeeps(kvs, h, 0, |h|);
    CompleteRotation(kvs[|h|], r);
    assert !key.IsExpired(now);
    hide Rotate, MadeKey, ActiveVersions, Healthy, LoadAll;
    if ActiveVersions(after) == {key.version} {
      SoleActiveKeyIsUsed(after, listing, failed, key, now);
    }
  }

  lemma SoleActiveKeyIsUsed(kv: Kv, listing: seq<string>, failed: set<string>, key: Record, now: int)
    requires WellStored(kv) && Lists(listing, kv)
    requires ActiveVersions(kv) == {key.version} && kv[key.version] == Loadable(key) && !key.IsExpired(now)
    ensures ActiveSigningKey(LoadAll(kv, listing, failed), now) ==
            if key.version in failed then Err("No active signing key found") else Ok(key)
    ensures Healthy(LoadAll(kv, listing, failed), now) <==> key.version !in failed
  {
    var at := PositionOfSoleActive(kv, listing, failed, key);
    var keys := LoadAll(kv, listing, failed);
    OnlyActiveIsChosen(keys, at, now);
    CountOfOneActive(keys, at);
  }

  /** The stored record of a new key, field by field, in literal seconds. */
  function FreshRecord(version: string, now: int, publicKey: string, sealed: string): Record {
    Record(version, "provii:" + version, Some(sealed), publicKey, now, Min(now + 31_536_000, 0x7FFF_FFFF_FFFF_FFFF),
           Active, true)
  }

  /**
   * What a complete rotation is for: it stores, under some version number, a
   * record with exactly the ciphertext and the public key it was given, its
   * clock, and an expiry one year later; and if every other active record had
   * loaded, that record is the one chosen for signing, in any listing and for
   * the whole year, whenever it loads.
   */
  lemma CompleteRotationStoresGivenKey(kv: Kv, r: Rotation, listing: seq<string>, failed: set<string>, now: int)
      returns (n: u32)
    requires WellStored(kv) && Complete(kv, r) && Lists(listing, Rotate(kv, r))
    ensures var version, after := "v" + Print(n), Rotate(kv, r);
            && after.Keys == kv.Keys + {version}
            && after[version] == Loadable(FreshRecord(version, r.now, r.publicKey, r.sealed))
            && (ActiveVersions(kv) * r.failed <= {version} && version !in failed
                && now <= Min(r.now + 31_536_000, 0x7FFF_FFFF_FFFF_FFFF) ==>
                  ActiveSigningKey(LoadAll(after, listing, failed), now) ==
                  Ok(FreshRecord(version, r.now, r.publicKey, r.sealed)))
  {
    n := SatAdd32(MaxVersion(Seen(kv, r)), 1);
    CompleteRotation(kv, r);
    var key, after := MadeKey(kv, r), Rotate(kv, r);
    assert key == FreshRecord("v" + Print(n), r.now, r.publicKey, r.sealed);
    hide Rotate, MadeKey, NextVersion, Healthy, LoadAll, Print;
    if ActiveVersions(kv) * r.failed <= {key.version} && now <= Min(r.now + 31_536_000, 0x7FFF_FFFF_FFFF_FFFF) {
      assert ActiveVersions(after) == {key.version};
      SoleActiveKeyIsUsed(after, listing, failed, key, now);
    }
  }

  /** Records load in listing order, each at most once. */
  lemma {:induction false} LoadedOnce(kv: Kv, names: seq<string>, failed: set<string>)
    requires WellStored(kv) && forall i, j | 0 <= i < j < |names| :: names[i] != names[j]
    ensures var keys := LoadAll(kv, names, failed);
            forall i, j | 0 <= i < j < |keys| :: keys[i].version != keys[j].version
  {
    if names != [] {
      LoadedOnce(kv, names[1..], failed);
      if Loads(kv, failed, names[0]) {
        var rest := LoadAll(kv, names[1..], failed);
        assert LoadAll(kv, names, failed) == [kv[names[0]].rec] + rest;
        forall j | 0 <= j < |rest|
          ensures rest[j].version != names[0]
        {
          LoadedIff(kv, names[1..], failed, rest[j]);
          var k :| 0 <= k < |names[1..]| && names[1..][k] == rest[j].version;
          assert names[k + 1] == rest[j].version;
        }
        assert kv[names[0]].rec.version == names[0];
      } else {
        assert LoadAll(kv, names, failed) == LoadAll(kv, names[1..], failed);
      }
    }
  }

  /** Where the sole active record stands among the loaded ones; past the end if it did not load. */
  lemma PositionOfSoleActive(kv: Kv, listing: seq<string>, failed: set<string>, key: Record) returns (at: nat)
    requires WellStored(kv) && Lists(listing, kv)
    requires ActiveVersions(kv) == {key.version} && kv[key.version] == Loadable(key)
    ensures var keys := LoadAll(kv, listing, failed);
            && (at < |keys| <==> key.version !in failed)
            && (at < |keys| ==> keys[at] == key)
            && forall i | 0 <= i < |keys| :: keys[i].status == Active <==> i == at
  {
    var keys := LoadAll(kv, listing, failed);
    assert key.version in ActiveVersions(kv);
    LoadedIff(kv, listing, failed, key);
    LoadedOnce(kv, listing, failed);
    if key.version in failed {
      at := |keys|;
    } else {
      at :| 0 <= at < |keys| && keys[at] == key;
    }
    forall i | 0 <= i < |keys|
      ensures keys[i].status == Active <==> i == at
    {
      LoadedIff(kv, listing, failed, keys[i]);
      assert keys[i].status == Active <==> keys[i].version in ActiveVersions(kv);
    }
  }
}
