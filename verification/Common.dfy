/** Definitions shared by all the driver models. */
module Common {
  /** One octet of device data.  No model does arithmetic on it. */
  newtype Byte = b: int | 0 <= b < 256

  datatype Option<+T> = None | Some(value: T)

  /** The error codes the modelled calls return. */
  datatype Errno = ENOMEM | EFAULT | EINVAL | EBUSY | ENODEV | EPERM

  datatype Result<+T> = Ok(value: T) | Error(errno: Errno)

  function Min(a: int, b: int): int {
    if a <= b then a else b
  }

  /** A remainder needs at most one subtraction when the dividend is below twice the divisor. */
  lemma ModOnce(x: nat, n: nat)
    requires 0 < n && x < 2 * n
    ensures x % n == if x < n then x else x - n
  {
  }

  /** Moving the middle piece to the front part does not change a concatenation. */
  lemma Regroup<T>(a: seq<T>, b: seq<T>, c: seq<T>)
    ensures a + (b + c) == (a + b) + c
  {
  }

  ghost predicate Injective<K(!new), V>(m: map<K, V>) {
    forall k, l :: k in m && l in m && k != l ==> m[k] != m[l]
  }

  /** A new key for a new value. */
  lemma OneMore<K(!new), V>(m: map<K, V>, k: K, v: V)
    requires Injective(m) && k !in m && v !in m.Values
    ensures Injective(m[k := v]) && m[k := v].Values == m.Values + {v}
  {
    assert forall l :: l in m ==> l in m[k := v] && m[k := v][l] == m[l] && m[l] in m.Values;
    assert k in m[k := v];
  }
}
