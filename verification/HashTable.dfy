/**
 The local hash table of a node (key-value-store/HashTable.cpp).
 */
module HashTables {

  /** What the operations make of a table: creating never overwrites, and an empty text counts as absent. */
  function Created(table: map<string, string>, key: string, value: string): map<string, string>
  {
    if key in table then table else table[key := value]
  }

  function ReadOf(table: map<string, string>, key: string): string
  {
    if key in table then table[key] else ""
  }

  function Updated(table: map<string, string>, key: string, value: string): map<string, string>
  {
    if ReadOf(table, key) == "" then table else table[key := value]
  }

  function Deleted(table: map<string, string>, key: string): map<string, string>
  {
    if ReadOf(table, key) == "" then table else table - {key}
  }

  predicate NoneEmpty(table: map<string, string>)
  {
    forall key :: key in table ==> table[key] != ""
  }

  /** While no text is empty, reading, updating and deleting find a key exactly when it is there. */
  lemma FoundIfPresent(table: map<string, string>, key: string)
    requires NoneEmpty(table)
    ensures ReadOf(table, key) != "" <==> key in table
  {
  }

  lemma OperationsKeepNoneEmpty(table: map<string, string>, key: string, value: string)
    requires NoneEmpty(table) && value != ""
    ensures NoneEmpty(Created(table, key, value)) && NoneEmpty(Updated(table, key, value)) && NoneEmpty(Deleted(table, key))
  {
  }

  class HashTable {
    var hashTable: map<string, string>

    constructor ()
      ensures hashTable == map[]
    {
      hashTable := map[];
    }

    method Create(key: string, value: string) returns (ok: bool)
      modifies this
      ensures ok && hashTable == Created(old(hashTable), key, value)
    {
      if key !in hashTable {
        hashTable := hashTable[key := value];
      }
      ok := true;
    }

    method Read(key: string) returns (value: string)
      ensures value == ReadOf(hashTable, key)
    {
      if key in hashTable {
        value := hashTable[key];
      } else {
        value := "";
      }
    }

    method Update(key: string, newValue: string) returns (ok: bool)
      modifies this
      ensures hashTable == Updated(old(hashTable), key, newValue) && ok == (ReadOf(old(hashTable), key) != "")
    {
      var found := Read(key);
      if found == "" {
        return false;
      }
      hashTable := hashTable[key := newValue];
      ok := true;
    }

    method DeleteKey(key: string) returns (ok: bool)
      modifies this
      ensures hashTable == Deleted(old(hashTable), key) && ok == (ReadOf(old(hashTable), key) != "")
      ensures ok ==> key !in hashTable
    {
      var found := Read(key);
      if found == "" {
        return false;
      }
      hashTable := hashTable - {key};
      ok := true;
    }

    function CurrentSize(): (n: nat)
      reads this
      ensures n == 0 <==> hashTable == map[]
    {
      |hashTable|
    }
  }
}
