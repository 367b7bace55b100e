/** The encrypted transcript store (backend/encrypted_transcripts.py) over an ideal authenticated
    cipher: a ciphertext opens only under the key, nonce, thread and sequence number it was
    sealed with, and wrapping a thread key keeps it. */
module EncryptedStore {
  import opened Common
  import Text

  type Bytes = seq<int>

  datatype Ciphertext = Sealed(key: nat, nonce: Bytes, thread: string, seqNo: int, plaintext: Bytes) | Junk(text: Bytes)

  /** A line of a chunk file as the reader sees it. */
  datatype Line = Blank | Malformed | Record(seqNo: int, nonce: Bytes, ct: Ciphertext)

  type File = seq<Line>

  datatype Error = ValueError | Unavailable | Unauthorized | Integrity | Shredded | Expired

  datatype Meta = Meta(createdAt: real, expiresAt: real, principals: set<string>, key: nat)

  datatype Store = Store(meta: map<string, Meta>, chunks: map<string, File>, tombstones: seq<string>)

  type Authorizer = (string, string, set<string>) -> bool

  datatype Config = Config(enabled: bool, available: bool, maxTtl: int, authorizer: Option<Authorizer>)

  const NONCE_LEN := 12

  predicate SafeChar(c: char) {
    'A' <= c <= 'Z' || 'a' <= c <= 'z' || '0' <= c <= '9'
  }

  predicate SafeName(id: string) {
    1 <= |id| <= 128 && SafeChar(id[0])
    && forall i | 0 < i < |id| :: SafeChar(id[i]) || id[i] == '.' || id[i] == '_' || id[i] == '-'
  }

  /** The pattern's end also matches before a final newline. */
  predicate ValidId(id: string) {
    SafeName(id) || (id != "" && id[|id| - 1] == '\n' && SafeName(id[..|id| - 1]))
  }

  function Open(ct: Ciphertext, key: nat, nonce: Bytes, thread: string, seqNo: int): Option<Bytes> {
    if ct.Sealed? && ct.key == key && ct.nonce == nonce && ct.thread == thread && ct.seqNo == seqNo then Some(ct.plaintext)
    else None
  }

  function NonBlank(f: File): nat {
    if f == [] then 0 else NonBlank(f[..|f| - 1]) + if f[|f| - 1].Blank? then 0 else 1
  }

  function OpenLine(line: Line, expected: nat, key: nat, thread: string): Result<Bytes, Error> {
    if !line.Record? || line.seqNo != expected || |line.nonce| != NONCE_LEN then Err(Integrity)
    else
      match Open(line.ct, key, line.nonce, thread, expected)
      case None => Err(Integrity)
      case Some(plaintext) => Ok(plaintext)
  }

  function OpenAll(f: File, key: nat, thread: string): Result<seq<Bytes>, Error> {
    if f == [] then Ok([])
    else
      var out, last := OpenAll(f[..|f| - 1], key, thread), OpenLine(f[|f| - 1], |f| - 1, key, thread);
      if out.Err? || last.Err? then Err(Integrity) else Ok(out.value + [last.value])
  }

  function Load(s: Store, id: string): Result<Meta, Error> {
    if id in s.tombstones then Err(Shredded)
    else if id !in s.meta then Err(Integrity)
    else Ok(s.meta[id])
  }

  function Cleaned(principals: seq<string>): set<string> {
    set p | p in principals && Text.Strip(p) != "" :: Text.Strip(p)
  }

  function Create(cfg: Config, s: Store, id: string, principals: seq<string>, ttl: int, now: real, key: nat)
    : (Store, Result<Meta, Error>)
  {
    if !ValidId(id) || Cleaned(principals) == {} || !(0 < ttl <= cfg.maxTtl) then (s, Err(ValueError))
    else if !cfg.enabled then (s, Err(Unavailable))
    else if id in s.tombstones then (s, Err(Shredded))
    else if id in s.meta || id in s.chunks then (s, Err(ValueError))
    else if !cfg.available then (s, Err(Unavailable))
    else
      var m := Meta(now, now + ttl as real, Cleaned(principals), key);
      (s.(meta := s.meta[id := m], chunks := s.chunks[id := []]), Ok(m))
  }

  /** The sequence number and ciphertext of a successful append. */
  function Append(cfg: Config, s: Store, id: string, plaintext: Bytes, now: real, nonce: Bytes): (Store, Result<nat, Error>) {
    if !ValidId(id) || plaintext == [] then (s, Err(ValueError))
    else if !cfg.enabled then (s, Err(Unavailable))
    else
      match Load(s, id)
      case Err(e) => (s, Err(e))
      case Ok(m) =>
        if now >= m.expiresAt then (s, Err(Expired))
        else if id !in s.chunks then (s, Err(Integrity))
        else if !cfg.available then (s, Err(Unavailable))
        else
          var n := NonBlank(s.chunks[id]);
          var line := Record(n, nonce, Sealed(m.key, nonce, id, n, plaintext));
          (s.(chunks := s.chunks[id := s.chunks[id] + [line]]), Ok(n))
  }

  predicate Allows(cfg: Config, id: string, caller: string, principals: set<string>) {
    if cfg.authorizer.Some? then cfg.authorizer.value(id, caller, principals) else caller in principals
  }

  function Read(cfg: Config, s: Store, id: string, principal: string, now: real): Result<seq<Bytes>, Error> {
    if !ValidId(id) || Text.Strip(principal) == "" then Err(ValueError)
    else if !cfg.enabled then Err(Unavailable)
    else
      match Load(s, id)
      case Err(e) => Err(e)
      case Ok(m) =>
        if !Allows(cfg, id, Text.Strip(principal), m.principals) then Err(Unauthorized)
        else if now >= m.expiresAt then Err(Expired)
        else if !cfg.available then Err(Unavailable)
        else if id !in s.chunks then Err(Integrity)
        else OpenAll(s.chunks[id], m.key, id)
  }

  function Shred(s: Store, id: string): Store {
    Store(s.meta - {id}, s.chunks - {id}, if id in s.tombstones then s.tombstones else s.tombstones + [id])
  }

  function CryptoShred(s: Store, id: string, reason: string): (Store, Option<Error>) {
    if !ValidId(id) || Text.Strip(reason) == "" then (s, Some(ValueError)) else (Shred(s, id), None)
  }

  /** The threads of a listing that are live and whose time is over. */
  function Overdue(s: Store, listing: seq<string>, now: real): seq<string> {
    if listing == [] then []
    else
      var id := listing[|listing| - 1];
      Overdue(s, listing[..|listing| - 1], now)
      + if id !in s.tombstones && id in s.meta && now >= s.meta[id].expiresAt then [id] else []
  }

  function ShredAll(s: Store, ids: seq<string>): Store {
    if ids == [] then s else Shred(ShredAll(s, ids[..|ids| - 1]), ids[|ids| - 1])
  }

  /** purge_expired over the listing of the metadata files. */
  function Purge(cfg: Config, s: Store, listing: seq<string>, now: real): (Store, Result<seq<string>, Error>) {
    if !cfg.enabled then (s, Err(Unavailable))
    else (ShredAll(s, Overdue(s, listing, now)), Ok(Overdue(s, listing, now)))
  }

  /** A listing of the directory names every metadata file once. */
  ghost predicate Lists(s: Store, listing: seq<string>) {
    && (forall i, j | 0 <= i < j < |listing| :: listing[i] != listing[j])
    && forall id :: id in listing <==> id in s.meta
  }

  class EncryptedTranscriptStore {
    const cfg: Config
    var meta: map<string, Meta>
    var chunks: map<string, File>
    var tombstones: seq<string>

    constructor (cfg: Config)
      ensures this.cfg == cfg && View() == Store(map[], map[], [])
    {
      this.cfg := cfg;
      meta, chunks, tombstones := map[], map[], [];
    }

    function View(): Store
      reads this
    {
      Store(meta, chunks, tombstones)
    }

    method CreateThread(id: string, principals: seq<string>, ttl: int, now: real, key: nat) returns (r: Result<Meta, Error>)
      modifies this
      ensures (View(), r) == Create(cfg, old(View()), id, principals, ttl, now, key)
    {
      if !ValidId(id) || Cleaned(principals) == {} || !(0 < ttl <= cfg.maxTtl) {
        return Err(ValueError);
      }
      if !cfg.enabled {
        return Err(Unavailable);
      }
      if id in tombstones {
        return Err(Shredded);
      }
      if id in meta || id in chunks {
        return Err(ValueError);
      }
      if !cfg.available {
        return Err(Unavailable);
      }
      var m := Meta(now, now + ttl as real, Cleaned(principals), key);
      meta := meta[id := m];
      chunks := chunks[id := []];
      return Ok(m);
    }

    method AppendChunk(id: string, plaintext: Bytes, now: real, nonce: Bytes) returns (r: Result<nat, Error>)
      modifies this
      ensures (View(), r) == Append(cfg, old(View()), id, plaintext, now, nonce)
    {
      if !ValidId(id) || plaintext == [] {
        return Err(ValueError);
      }
      if !cfg.enabled {
        return Err(Unavailable);
      }
      var loaded := Load(View(), id);
      if loaded.Err? {
        return Err(loaded.error);
      }
      var m := loaded.value;
      if now >= m.expiresAt {
        return Err(Expired);
      }
      if id !in chunks {
        return Err(Integrity);
      }
      if !cfg.available {
        return Err(Unavailable);
      }
      var file, n := chunks[id], 0;
      for i := 0 to |file|
        invariant n == NonBlank(file[..i])
      {
        assert file[..i + 1][..i] == file[..i];
        if !file[i].Blank? {
          n := n + 1;
        }
      }
      assert file[..|file|] == file;
      chunks := chunks[id := file + [Record(n, nonce, Sealed(m.key, nonce, id, n, plaintext))]];
      return Ok(n);
    }

    method ReadChunks(id: string, principal: string, now: real) returns (r: Result<seq<Bytes>, Error>)
      ensures r == Read(cfg, View(), id, principal, now)
    {
      if !ValidId(id) || Text.Strip(principal) == "" {
        return Err(ValueError);
      }
      if !cfg.enabled {
        return Err(Unavailable);
      }
      var loaded := Load(View(), id);
      if loaded.Err? {
        return Err(loaded.error);
      }
      var m := loaded.value;
      if !Allows(cfg, id, Text.Strip(principal), m.principals) {
        return Err(Unauthorized);
      }
      if now >= m.expiresAt {
        return Err(Expired);
      }
      if !cfg.available {
        return Err(Unavailable);
      }
      if id !in chunks {
        return Err(Integrity);
      }
      var file, out := chunks[id], [];
      hide ValidId, Allows, OpenLine;
      for i := 0 to |file|
        invariant OpenAll(file[..i], m.key, id) == Ok(out)
      {
        assert file[..i + 1][..i] == file[..i];
        var line := OpenLine(file[i], i, m.key, id);
        if line.Err? {
          OpenFails(file, i + 1, m.key, id);
          return Err(Integrity);
        }
        out := out + [line.value];
      }
      assert file[..|file|] == file;
      return Ok(out);
    }

    method CryptoShredThread(id: string, reason: string) returns (e: Option<Error>)
      modifies this
      ensures (View(), e) == CryptoShred(old(View()), id, reason)
    {
      if !ValidId(id) || Text.Strip(reason) == "" {
        return Some(ValueError);
      }
      if id !in tombstones {
        tombstones := tombstones + [id];
      }
      meta := meta - {id};
      chunks := chunks - {id};
      return None;
    }

    method PurgeExpired(listing: seq<string>, now: real) returns (r: Result<seq<string>, Error>)
      requires Lists(View(), listing) && forall id :: id in meta ==> ValidId(id)
      modifies this
      ensures (View(), r) == Purge(cfg, old(View()), listing, now)
    {
      if !cfg.enabled {
        return Err(Unavailable);
      }
      ghost var was := View();
      var purged := [];
      hide Overdue, ShredAll, CryptoShred, ValidId;
      PurgeStarts(was, now);
      assert listing[..0] == [];
      for i := 0 to |listing|
        invariant purged == Overdue(was, listing[..i], now) && View() == ShredAll(was, purged)
      {
        PurgeStep(was, listing, now, i);
        var id := listing[i];
        if id !in tombstones && id in meta && now >= meta[id].expiresAt {
          ShredsLive(View(), id);
          var e := CryptoShredThread(id, "ttl-expired");
          purged := purged + [id];
        }
      }
      assert listing[..|listing|] == listing;
      return Ok(purged);
    }
  }

  /** A file that fails on its first lines fails. */
  lemma {:induction false} OpenFails(f: File, n: nat, key: nat, thread: string)
    requires n <= |f| && OpenAll(f[..n], key, thread).Err?
    ensures OpenAll(f, key, thread) == Err(Integrity)
    decreases |f|
  {
    if n == |f| {
      assert f[..n] == f;
    } else {
      assert f[..|f| - 1][..n] == f[..n];
      OpenFails(f[..|f| - 1], n, key, thread);
    }
  }

  lemma {:induction false} OverdueAre(s: Store, listing: seq<string>, now: real, id: string)
    ensures id in Overdue(s, listing, now)
            <==> id in listing && id !in s.tombstones && id in s.meta && now >= s.meta[id].expiresAt
  {
    if listing != [] {
      OverdueAre(s, listing[..|listing| - 1], now, id);
      assert listing == listing[..|listing| - 1] + [listing[|listing| - 1]];
    }
  }

  /** Shredding some threads adds their tombstones, removes what they held and leaves the rest. */
  lemma {:induction false} ShredAllAre(s: Store, ids: seq<string>, id: string)
    ensures var t := ShredAll(s, ids);
            && (id in t.tombstones <==> id in s.tombstones || id in ids)
            && (id in t.meta <==> id in s.meta && id !in ids) && (id in t.meta ==> t.meta[id] == s.meta[id])
            && (id in t.chunks <==> id in s.chunks && id !in ids) && (id in t.chunks ==> t.chunks[id] == s.chunks[id])
            && s.tombstones <= t.tombstones
  {
    if ids != [] {
      ShredAllAre(s, ids[..|ids| - 1], id);
      assert ids == ids[..|ids| - 1] + [ids[|ids| - 1]];
    }
  }

  lemma PurgeStarts(s: Store, now: real)
    ensures Overdue(s, [], now) == [] && ShredAll(s, []) == s
  {
  }

  /** One more file of the listing: it is shredded exactly when it is still live and overdue. */
  lemma PurgeStep(s: Store, listing: seq<string>, now: real, i: nat)
    requires i < |listing| && Lists(s, listing)
    ensures var id, purged := listing[i], Overdue(s, listing[..i], now);
            var t := ShredAll(s, purged);
            var due := id !in t.tombstones && id in t.meta && now >= t.meta[id].expiresAt;
            && Overdue(s, listing[..i + 1], now) == purged + (if due then [id] else [])
            && ShredAll(s, purged + [id]) == Shred(t, id)
            && (due ==> id in s.meta)
  {
    var id, purged := listing[i], Overdue(s, listing[..i], now);
    assert listing[..i + 1][..i] == listing[..i] && (purged + [id])[..|purged|] == purged;
    OverdueAre(s, listing[..i], now, id);
    ShredAllAre(s, purged, id);
    assert id !in listing[..i];
  }

  lemma ShredsLive(s: Store, id: string)
    ensures ValidId(id) ==> CryptoShred(s, id, "ttl-expired") == (Shred(s, id), None)
  {
    hide ValidId;
    var reason := "ttl-expired";
    assert reason[0] == 't' && reason[|reason| - 1] == 'd';
  }

  /** Main result: a purge returns exactly the live threads whose time is over, and afterwards
      exactly these are shredded on top of those that were. */
  lemma PurgeShredsExactlyTheExpired(cfg: Config, s: Store, listing: seq<string>, now: real, id: string)
    requires cfg.enabled && Lists(s, listing)
    ensures var t := Purge(cfg, s, listing, now).0;
            var purged := Purge(cfg, s, listing, now).1.value;
            && (id in purged <==> id in s.meta && id !in s.tombstones && s.meta[id].expiresAt <= now)
            && (id in t.tombstones <==> id in s.tombstones || id in purged)
            && (id in purged ==> id !in t.meta && id !in t.chunks)
            && (id !in purged ==> (id in t.meta <==> id in s.meta) && (id in t.meta ==> t.meta[id] == s.meta[id]))
            && (id !in purged ==> (id in t.chunks <==> id in s.chunks) && (id in t.chunks ==> t.chunks[id] == s.chunks[id]))
  {
    OverdueAre(s, listing, now, id);
    ShredAllAre(s, Overdue(s, listing, now), id);
  }
}
