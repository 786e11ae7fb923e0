/** Shared types, and two facts about collections that proofs ask for by name. */
module Common {
  /** A nullable column, or a Rust `Option`. */
  datatype Option<+T> = None | Some(value: T)

  /** Raw bytes, one char each. */
  type Bytes = string

  /** The uid_validity column of an account: folder name to UIDVALIDITY. */
  type Validity = map<string, int>

  const U32_BOUND: nat := 0x1_0000_0000

  lemma Element<T>(s: set<T>) returns (x: T)
    requires s != {}
    ensures x in s
  {
    x :| x in s;
  }

  lemma AppendAssoc<T>(a: seq<T>, b: seq<T>, c: seq<T>)
    ensures (a + b) + c == a + (b + c)
  {}
}
