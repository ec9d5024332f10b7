/** Command datagrams: COMPARE_BUFFER_TO_CMD of src/arm.c and src/rollcontrol.c. */
module Commands {
  import opened Bytes

  predicate IsAscii(s: string) {
    forall i :: 0 <= i < |s| ==> 0 < s[i] as int < 128
  }

  /** A C string literal: its characters and the terminating NUL that sizeof counts. */
  function CString(s: string): (bs: seq<byte>)
    requires IsAscii(s)
    ensures |bs| == |s| + 1 && bs[|s|] == 0
    ensures forall i :: 0 <= i < |s| ==> bs[i] == s[i] as int && bs[i] != 0
  {
    seq<byte>(|s|, i requires 0 <= i < |s| => s[i] as int) + [0]
  }

  /** strncmp(a, b, n) == 0. */
  predicate StrNCmpEqual(a: seq<byte>, b: seq<byte>, n: nat)
    requires n <= |a| && n <= |b|
  {
    n == 0 || (a[0] == b[0] && (a[0] == 0 || StrNCmpEqual(a[1..], b[1..], n - 1)))
  }

  /** Does a datagram select a command: only as many bytes as it has are compared, and no more than the command's. */
  predicate Selects(buffer: seq<byte>, cmd: seq<byte>) {
    StrNCmpEqual(buffer, cmd, if |cmd| > |buffer| then |buffer| else |cmd|)
  }

  lemma {:induction false} PrefixCompare(a: seq<byte>, b: seq<byte>, n: nat)
    requires n <= |a| && n <= |b|
    requires forall i :: 0 <= i < n - 1 ==> b[i] != 0
    ensures StrNCmpEqual(a, b, n) <==> a[..n] == b[..n]
  {
    if n > 0 {
      PrefixCompare(a[1..], b[1..], n - 1);
      assert a[..n] == [a[0]] + a[1..][..n - 1];
      assert b[..n] == [b[0]] + b[1..][..n - 1];
    }
  }

  /** A datagram selects a command exactly when it is a prefix of it or it begins with the command and its NUL. */
  lemma SelectsIsPrefix(buffer: seq<byte>, s: string)
    requires IsAscii(s)
    ensures Selects(buffer, CString(s)) <==> buffer <= CString(s) || CString(s) <= buffer
  {
    var cmd := CString(s);
    var n := if |cmd| > |buffer| then |buffer| else |cmd|;
    PrefixCompare(buffer, cmd, n);
    assert buffer[..n] == cmd[..n] <==> buffer <= cmd || cmd <= buffer;
  }
}
