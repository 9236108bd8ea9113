/** memcpy and memmove towards the front, on arrays. */
module Memory {
  method Copy<T>(dst: array<T>, at: nat, src: array<T>, from: nat, n: nat)
    requires at + n <= dst.Length && from + n <= src.Length && (dst == src ==> at <= from)
    modifies dst
    ensures dst[at..at + n] == old(src[from..from + n])
    ensures dst[..at] == old(dst[..at]) && dst[at + n..] == old(dst[at + n..])
  {
    var i := 0;
    while i < n
      invariant i <= n
      invariant forall j :: at <= j < at + i ==> dst[j] == old(src[j - at + from])
      invariant forall j :: from + i <= j < src.Length ==> src[j] == old(src[j])
      invariant dst[..at] == old(dst[..at]) && dst[at + i..] == old(dst[at + i..])
    {
      dst[at + i] := src[from + i];
      i := i + 1;
    }
  }
}
