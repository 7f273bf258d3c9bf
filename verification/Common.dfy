/** What several of the modules share. */
module Common {

  const TWO31: int := 0x8000_0000
  const TWO32: int := 0x1_0000_0000

  type Uint32 = n: nat | n < 0x1_0000_0000

  datatype Option<T> = None | Some(value: T)

  function Min(a: nat, b: nat): nat {
    if a <= b then a else b
  }

  function Max(a: int, b: int): int {
    if a >= b then a else b
  }

  // ---------- Files under their names

  function Lookup<K, V>(files: map<K, seq<V>>, name: K): Option<seq<V>> {
    if name in files then Some(files[name]) else None
  }

  function Size<K, V>(files: map<K, seq<V>>, name: K): nat {
    if name in files then |files[name]| else 0
  }

  /** What a file holds just after it has been opened for writing. Some platforms empty it, others write on at its end. */
  function Opened<K, V>(files: map<K, seq<V>>, name: K, truncates: bool): (r: seq<V>)
    ensures |r| <= Size(files, name)
  {
    if truncates || name !in files then [] else files[name]
  }
}
