/** The idempotency-key registry (idempotency/idempotency-store.go and
    idempotency/idempotency.go): a table from key to status that the methods
    insert into, overwrite and delete from in place. The UUID source is a
    supplied sequence of candidates, `None` standing for a generator error. */
module Idempotency {
  import opened Wrappers
  import opened Constants

  datatype KeyError = KeyNotFound(key: string) | KeyGenerationFailed | KeyGenerationExhausted

  /** Every candidate in `candidates` was produced and is already a key of `table`. */
  ghost predicate AllTaken(table: map<string, KeyStatus>, candidates: seq<Option<string>>)
  {
    forall i :: 0 <= i < |candidates| ==> candidates[i].Some? && candidates[i].value in table
  }

  /** The effect on the table of one call through the `IdempotencyStore`
      interface: a check or a failed call leaves it as it was, a create inserts
      an absent key at WAITING, an update overwrites a present key with any status. */
  ghost predicate InterfaceStep(table: map<string, KeyStatus>, table': map<string, KeyStatus>)
  {
    || table' == table
    || (exists k :: k !in table && table' == table[k := Waiting])
    || (exists k :: k in table && k in table' && table' == table[k := table'[k]])
  }

  class KeyBasedIdempotencyStore {
    var keyTable: map<string, KeyStatus>
    /** Every status update asked of this store, oldest first. */
    ghost var updates: seq<(string, KeyStatus)>

    /** NewIdempotencyStore: an empty table. */
    constructor ()
      ensures keyTable == map[] && updates == []
    {
      keyTable := map[];
      updates := [];
    }

    /** Takes candidates in order until one is not yet a key; a generator error
        ends the search. */
    method GenerateIdempotencyKey(candidates: seq<Option<string>>) returns (r: Result<string, KeyError>)
      ensures r.Ok? ==> r.value !in keyTable
      ensures r.Ok? ==> exists i :: 0 <= i < |candidates| && candidates[i] == Some(r.value) && AllTaken(keyTable, candidates[..i])
      ensures r == Err(KeyGenerationFailed) ==> exists i :: 0 <= i < |candidates| && candidates[i] == None && AllTaken(keyTable, candidates[..i])
      ensures r == Err(KeyGenerationExhausted) <==> AllTaken(keyTable, candidates)
      ensures r.Err? ==> !r.error.KeyNotFound?
    {
      var i := 0;
      while i < |candidates|
        invariant 0 <= i <= |candidates|
        invariant AllTaken(keyTable, candidates[..i])
      {
        match candidates[i]
        case None =>
          return Err(KeyGenerationFailed);
        case Some(key) =>
          if key !in keyTable {
            return Ok(key);
          }
        i := i + 1;
      }
      assert candidates[..i] == candidates;
      r := Err(KeyGenerationExhausted);
    }

    /** Generates a fresh key and files it at WAITING; nothing else changes. */
    method CreateNewIdempotencyKey(candidates: seq<Option<string>>) returns (r: Result<string, KeyError>)
      modifies this
      ensures updates == old(updates)
      ensures r.Ok? ==> r.value !in old(keyTable) && keyTable == old(keyTable)[r.value := Waiting]
      ensures r.Ok? ==> exists i :: 0 <= i < |candidates| && candidates[i] == Some(r.value) && AllTaken(old(keyTable), candidates[..i])
      ensures r.Err? ==> keyTable == old(keyTable)
      ensures r == Err(KeyGenerationExhausted) <==> AllTaken(old(keyTable), candidates)
      ensures r == Err(KeyGenerationFailed) ==> exists i :: 0 <= i < |candidates| && candidates[i] == None && AllTaken(old(keyTable), candidates[..i])
      ensures r.Err? ==> !r.error.KeyNotFound?
      ensures InterfaceStep(old(keyTable), keyTable)
    {
      r := GenerateIdempotencyKey(candidates);
      if r.Ok? {
        keyTable := keyTable[r.value := Waiting];
      }
    }

    /** Removes the key; an absent key is a no-op. Not part of the interface. */
    method ConfirmIdempotencyKeyAsProcessed(key: string)
      modifies this
      ensures keyTable == old(keyTable) - {key}
      ensures updates == old(updates)
    {
      keyTable := keyTable - {key};
    }

    /** The stored status of a present key; an error for an absent one. */
    method CheckIdempotencyKeyStatus(key: string) returns (r: Result<KeyStatus, KeyError>)
      ensures key in keyTable ==> r == Ok(keyTable[key])
      ensures key !in keyTable ==> r == Err(KeyNotFound(key))
    {
      if key !in keyTable {
        return Err(KeyNotFound(key));
      }
      r := Ok(keyTable[key]);
    }

    /** Overwrites the status of a present key with any status, enforcing no
        transition; an absent key is an error and nothing is inserted. */
    method UpdateIdempotencyKeyStatus(key: string, status: KeyStatus) returns (err: Option<KeyError>)
      modifies this
      ensures updates == old(updates) + [(key, status)]
      ensures key in old(keyTable) ==> err == None && keyTable == old(keyTable)[key := status]
      ensures key !in old(keyTable) ==> err == Some(KeyNotFound(key)) && keyTable == old(keyTable)
      ensures keyTable.Keys == old(keyTable).Keys
      ensures InterfaceStep(old(keyTable), keyTable)
    {
      updates := updates + [(key, status)];
      if key in keyTable {
        keyTable := keyTable[key := status];
        err := None;
      } else {
        err := Some(KeyNotFound(key));
      }
    }
  }

  /** A caller that holds only the interface never loses a key: along any run
      of interface calls, the keys of an earlier table are keys of every later one. */
  lemma {:induction false} InterfaceNeverRemovesKeys(tables: seq<map<string, KeyStatus>>, i: nat, j: nat)
    requires forall n :: 0 <= n < |tables| - 1 ==> InterfaceStep(tables[n], tables[n + 1])
    requires i <= j < |tables|
    ensures tables[i].Keys <= tables[j].Keys
    decreases j - i
  {
    if i < j {
      InterfaceNeverRemovesKeys(tables, i + 1, j);
      var t, t' := tables[i], tables[i + 1];
      assert InterfaceStep(t, t');
      if t' != t {
        if exists k :: k !in t && t' == t[k := Waiting] {
          var k :| k !in t && t' == t[k := Waiting];
          assert t'.Keys == t.Keys + {k};
        } else {
          var k :| k in t && k in t' && t' == t[k := t'[k]];
          assert t'.Keys == t.Keys;
        }
      }
    }
  }

  /** Deleting a key is not something the interface can do: removing a
      present key from any table is no interface step. */
  lemma ConfirmIsOutsideTheInterface(t: map<string, KeyStatus>, k: string)
    requires k in t
    ensures !InterfaceStep(t, t - {k})
  {
  }

  /** A fresh store knows no key: checking and updating any key both fail. */
  method FreshStoreKnowsNoKey(key: string, status: KeyStatus) returns (checked: Result<KeyStatus, KeyError>, updated: Option<KeyError>)
    ensures checked == Err(KeyNotFound(key))
    ensures updated == Some(KeyNotFound(key))
  {
    var store := new KeyBasedIdempotencyStore();
    checked := store.CheckIdempotencyKeyStatus(key);
    updated := store.UpdateIdempotencyKeyStatus(key, status);
  }

  /** A created key starts at WAITING, and any status can then be written over
      any other, SUCCESS back to WAITING included. */
  method UpdateEnforcesNoTransition(candidate: string, from: KeyStatus, to: KeyStatus)
    returns (created: Result<string, KeyError>, initial: Result<KeyStatus, KeyError>, observed: Result<KeyStatus, KeyError>)
    ensures created == Ok(candidate)
    ensures initial == Ok(Waiting)
    ensures observed == Ok(to)
  {
    var store := new KeyBasedIdempotencyStore();
    assert [Some(candidate)][0].value !in store.keyTable;
    created := store.CreateNewIdempotencyKey([Some(candidate)]);
    initial := store.CheckIdempotencyKeyStatus(candidate);
    var _ := store.UpdateIdempotencyKeyStatus(candidate, from);
    var _ := store.UpdateIdempotencyKeyStatus(candidate, to);
    observed := store.CheckIdempotencyKeyStatus(candidate);
  }

  /** Once a key is confirmed as processed it is unknown again. */
  method ConfirmedKeyIsUnknown(candidate: string) returns (observed: Result<KeyStatus, KeyError>)
    ensures observed == Err(KeyNotFound(candidate))
  {
    var store := new KeyBasedIdempotencyStore();
    var _ := store.CreateNewIdempotencyKey([Some(candidate)]);
    store.ConfirmIdempotencyKeyAsProcessed(candidate);
    observed := store.CheckIdempotencyKeyStatus(candidate);
  }
}
