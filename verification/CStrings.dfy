// C strings in memory, and what strncpy writes.
module CStrings {

  // The bytes before the first NUL.
  function CString(b: seq<char>): (s: seq<char>)
    ensures |s| <= |b|
  {
    if b == [] || b[0] == '\0' then [] else [b[0]] + CString(b[1..])
  }

  lemma {:induction false} CStringPart(b: seq<char>)
    ensures CString(b) <= b && '\0' !in CString(b)
    ensures |CString(b)| < |b| ==> b[|CString(b)|] == '\0'
  {
    if b != [] && b[0] != '\0' {
      CStringPart(b[1..]);
    }
  }

  // A string that is not terminated is read on into what follows it.
  lemma {:induction false} CStringAppend(p: seq<char>, rest: seq<char>)
    requires '\0' !in p
    ensures CString(p + rest) == p + CString(rest)
  {
    if p == [] {
      assert p + rest == rest;
    } else {
      assert (p + rest)[1..] == p[1..] + rest;
      assert forall c :: c in p[1..] ==> c in p;
      CStringAppend(p[1..], rest);
      assert p == [p[0]] + p[1..];
    }
  }

  lemma CStringPrefix(p: seq<char>, rest: seq<char>)
    requires '\0' !in p
    requires rest == [] || rest[0] == '\0'
    ensures CString(p + rest) == p
  {
    CStringAppend(p, rest);
  }

  // strncpy(dst, src, n): at most n bytes, padded with NULs to n.
  function Copied(src: seq<char>, n: nat): (s: seq<char>)
    ensures |s| == n
  {
    var c := CString(src);
    if |c| >= n then c[..n] else c + seq(n - |c|, _ => '\0')
  }

  lemma CopiedBytes(src: seq<char>, n: nat, k: nat)
    requires k < n
    ensures Copied(src, n)[k] == if k < |CString(src)| then src[k] else '\0'
  {
    CStringPart(src);
  }

  lemma CopiedShort(src: seq<char>, n: nat, behind: seq<char>)
    requires '\0' !in src && |src| < n
    ensures CString(Copied(src, n) + behind) == src
  {
    CStringPrefix(src, []);
    assert src + [] == src;
    var pad := seq(n - |src|, _ => '\0');
    assert Copied(src, n) + behind == src + (pad + behind);
    CStringPrefix(src, pad + behind);
  }

  lemma CopiedLong(src: seq<char>, n: nat, behind: seq<char>)
    requires '\0' !in src && |src| >= n
    ensures CString(Copied(src, n) + behind) == src[..n] + CString(behind)
  {
    CStringPrefix(src, []);
    assert src + [] == src;
    CStringAppend(src[..n], behind);
  }

  // A string copied by strncpy(.., n) reads back unchanged exactly when it is
  // shorter than n or what stands behind the n bytes continues it; at n bytes
  // that means a NUL behind them.
  lemma CopiedReadsBackIff(src: seq<char>, n: nat, behind: seq<char>)
    requires '\0' !in src
    ensures CString(Copied(src, n) + behind) == src <==> |src| < n || src[n..] == CString(behind)
    ensures |src| == n ==> (CString(Copied(src, n) + behind) == src <==> behind == [] || behind[0] == '\0')
  {
    if |src| < n {
      CopiedShort(src, n, behind);
    } else {
      CopiedLong(src, n, behind);
      assert src == src[..n] + src[n..];
    }
  }
}
