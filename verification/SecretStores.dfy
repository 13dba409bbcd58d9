/** The storage seam: a string-keyed store whose every operation may fail. */
module SecretStores {
  import opened Wrappers

  const SIGNING_KEY := "signing-key"
  const PAIRING_CODE := "pairing-code"
  const PRINCIPALS := "principals"
  const CLIENTS := "clients"
  const REFRESH_TOKENS := "refresh-tokens"

  /** What a store holds, and which of its next operations fail: the head of
      `faults` decides the next one, and an exhausted schedule never fails. */
  datatype Disk = Disk(docs: map<string, string>, faults: seq<bool>) {
    predicate Fails() {
      faults != [] && faults[0]
    }

    function Spent(): Disk {
      if faults == [] then this else this.(faults := faults[1..])
    }

    function Get(key: string): (Disk, Result<Option<string>>) {
      (Spent(), if Fails() then Failed else Ok(if key in docs then Some(docs[key]) else None))
    }

    function Set(key: string, value: string): (Disk, Result<()>) {
      if Fails() then (Spent(), Failed) else (Spent().(docs := docs[key := value]), Ok(()))
    }

    function DeleteAll(): (Disk, Result<()>) {
      if Fails() then (Spent(), Failed) else (Spent().(docs := map[]), Ok(()))
    }
  }

  /** Operation k from now fails. */
  predicate FailsAt(d: Disk, k: nat) {
    k < |d.faults| && d.faults[k]
  }

  /** The five documents never share a key. */
  lemma KeysDistinct()
    ensures SIGNING_KEY != PAIRING_CODE && SIGNING_KEY != PRINCIPALS && SIGNING_KEY != CLIENTS
    ensures SIGNING_KEY != REFRESH_TOKENS && PAIRING_CODE != PRINCIPALS && PAIRING_CODE != CLIENTS
    ensures PAIRING_CODE != REFRESH_TOKENS && PRINCIPALS != CLIENTS
    ensures PRINCIPALS != REFRESH_TOKENS && CLIENTS != REFRESH_TOKENS
  {
    assert |SIGNING_KEY| == 11 && |PAIRING_CODE| == 12 && |PRINCIPALS| == 10;
    assert |CLIENTS| == 7 && |REFRESH_TOKENS| == 14;
  }

  /** MemStore (and, with a fault schedule, KeyringStore). */
  class SecretStore {
    var docs: map<string, string>
    var faults: seq<bool>

    function Image(): Disk
      reads this
    {
      Disk(docs, faults)
    }

    constructor (faults: seq<bool>)
      ensures docs == map[] && this.faults == faults
    {
      docs, this.faults := map[], faults;
    }

    method Spend() returns (fails: bool)
      modifies this
      ensures fails == old(Image()).Fails() && Image() == old(Image()).Spent()
    {
      fails := faults != [] && faults[0];
      if faults != [] {
        faults := faults[1..];
      }
    }

    method Get(key: string) returns (r: Result<Option<string>>)
      modifies this
      ensures (Image(), r) == old(Image()).Get(key)
    {
      var fails := Spend();
      r := if fails then Failed else Ok(if key in docs then Some(docs[key]) else None);
    }

    method Set(key: string, value: string) returns (r: Result<()>)
      modifies this
      ensures (Image(), r) == old(Image()).Set(key, value)
    {
      var fails := Spend();
      if fails {
        return Failed;
      }
      docs := docs[key := value];
      return Ok(());
    }

    method DeleteAll() returns (r: Result<()>)
      modifies this
      ensures (Image(), r) == old(Image()).DeleteAll()
    {
      var fails := Spend();
      if fails {
        return Failed;
      }
      docs := map[];
      return Ok(());
    }
  }
}
