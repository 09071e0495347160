/** The digest a publisher signs: a length-prefixed encoding of every file but the signature. */
module Payload {
  import opened Bytes
  import opened Archive

  type Name = seq<Byte>
  type Files = map<Name, seq<Byte>>

  const PREFIX := Ascii("pishoo-waz-payload-v1") + [0]
  const HASH_SIZE := 32

  // ------------------------------------------------------------ the order of a map's keys

  ghost predicate IsLeast(m: Name, s: set<Name>) {
    m in s && forall k :: k in s && k != m ==> Less(m, k)
  }

  lemma {:induction false} SomeLeast(s: set<Name>)
    requires s != {}
    ensures exists m :: IsLeast(m, s)
  {
    var x :| x in s;
    var rest := s - {x};
    if rest == {} {
      assert s == {x};
      assert IsLeast(x, s);
    } else {
      SomeLeast(rest);
      var m :| IsLeast(m, rest);
      LessIsTotal(m, x);
      if Less(m, x) {
        assert IsLeast(m, s);
      } else {
        forall k | k in s && k != x ensures Less(x, k) {
          if k != m { LessIsTransitive(x, m, k); }
        }
        assert IsLeast(x, s);
      }
    }
  }

  lemma LeastIsUnique(a: Name, b: Name, s: set<Name>)
    requires IsLeast(a, s) && IsLeast(b, s)
    ensures a == b
  {
    LessIsTotal(a, b);
  }

  ghost predicate Ascending(names: seq<Name>) {
    forall i, j :: 0 <= i < j < |names| ==> Less(names[i], names[j])
  }

  /** The keys in the order an ordered map yields them. */
  ghost function Ordered(s: set<Name>): (r: seq<Name>)
    ensures Ascending(r) && forall n :: n in r <==> n in s
    decreases s
  {
    if s == {} then []
    else
      SomeLeast(s);
      var m :| IsLeast(m, s);
      var rest := Ordered(s - {m});
      assert forall j :: 0 <= j < |rest| ==> rest[j] in s - {m};
      [m] + rest
  }

  lemma OrderedStartsWith(s: set<Name>, m: Name)
    requires IsLeast(m, s)
    ensures Ordered(s) == [m] + Ordered(s - {m})
  {
    SomeLeast(s);
    var x :| IsLeast(x, s) && Ordered(s) == [x] + Ordered(s - {x});
    LeastIsUnique(x, m, s);
  }

  // ------------------------------------------------------------ the encoding

  /** One file: its name with a 32-bit length, then its 64-bit length and the hash of its bytes. */
  function Field(name: Name, content: seq<Byte>, hash: seq<Byte> -> seq<Byte>): seq<Byte> {
    LittleEndian(|name|, 4) + name + LittleEndian(|content|, 8) + hash(content)
  }

  ghost function Fields(files: Files, names: seq<Name>, hash: seq<Byte> -> seq<Byte>): seq<Byte>
    requires forall n :: n in names ==> n in files
  {
    if names == [] then [] else Field(names[0], files[names[0]], hash) + Fields(files, names[1..], hash)
  }

  ghost function Preimage(files: Files, hash: seq<Byte> -> seq<Byte>): seq<Byte> {
    PREFIX + Fields(files, Ordered(files.Keys - {SIGNATURE}), hash)
  }

  method Least(s: set<Name>) returns (m: Name)
    requires s != {}
    ensures IsLeast(m, s)
  {
    m :| m in s;
    var rest := s - {m};
    while rest != {}
      invariant rest <= s && m in s && m !in rest && forall k :: k in s && k !in rest && k != m ==> Less(m, k)
      decreases rest
    {
      var k :| k in rest;
      LessIsTotal(k, m);
      forall j | j in s && j !in rest && j != m && Less(k, m) ensures Less(k, j) {
        LessIsTransitive(k, m, j);
      }
      rest := rest - {k};
      if Less(k, m) { m := k; }
    }
  }

  /** Feed the prefix and then every file in key order to the digest. */
  method WazPayload(files: Files, hash: seq<Byte> -> seq<Byte>) returns (digest: seq<Byte>)
    ensures digest == hash(Preimage(files, hash))
  {
    var fed := PREFIX;
    var rest := files.Keys;
    while rest != {}
      invariant rest <= files.Keys
      invariant fed + Fields(files, Ordered(rest - {SIGNATURE}), hash) == Preimage(files, hash)
      decreases rest
    {
      var name := Least(rest);
      if name != SIGNATURE {
        FeedOne(files, rest - {SIGNATURE}, name, hash, fed);
        fed := fed + Field(name, files[name], hash);
        assert rest - {SIGNATURE} - {name} == rest - {name} - {SIGNATURE};
      } else {
        assert rest - {name} - {SIGNATURE} == rest - {SIGNATURE};
      }
      rest := rest - {name};
    }
    assert fed + Fields(files, Ordered({}), hash) == fed;
    assert {} - {SIGNATURE} == {};
    digest := hash(fed);
  }

  lemma FeedOne(files: Files, rest: set<Name>, name: Name, hash: seq<Byte> -> seq<Byte>, fed: seq<Byte>)
    requires rest <= files.Keys && IsLeast(name, rest)
    ensures fed + Field(name, files[name], hash) + Fields(files, Ordered(rest - {name}), hash) ==
      fed + Fields(files, Ordered(rest), hash)
  {
    OrderedStartsWith(rest, name);
    assert Ordered(rest)[1..] == Ordered(rest - {name});
  }

  // ------------------------------------------------------------ what equal digests mean

  /** Lengths fit the fields they are written to. */
  ghost predicate Encodable(files: Files) {
    forall n :: n in files ==> |n| < Pow256(4) && |files[n]| < Pow256(8)
  }

  ghost predicate Sized(hash: seq<Byte> -> seq<Byte>) {
    forall b :: |hash(b)| == HASH_SIZE
  }

  ghost predicate Collision(hash: seq<Byte> -> seq<Byte>, a: seq<Byte>, b: seq<Byte>) {
    a != b && hash(a) == hash(b)
  }

  /** The same files with the same bytes, signatures aside. */
  ghost predicate AgreeButSignature(f: Files, g: Files) {
    f - {SIGNATURE} == g - {SIGNATURE}
  }

  lemma Suffixes(p: seq<Byte>, a: seq<Byte>, q: seq<Byte>, b: seq<Byte>)
    requires p + a == q + b && |p| == |q|
    ensures p == q && a == b
  {
    assert (p + a)[..|p|] == p && (q + b)[..|q|] == q;
    assert (p + a)[|p|..] == a && (q + b)[|q|..] == b;
  }

  lemma FieldNested(m: Name, x: seq<Byte>, a: seq<Byte>, hash: seq<Byte> -> seq<Byte>)
    ensures Field(m, x, hash) + a == LittleEndian(|m|, 4) + (m + (LittleEndian(|x|, 8) + (hash(x) + a)))
  {
  }

  /** The encoding of one file ends where it says, so what follows it is determined too. */
  lemma FieldIsPrefixFree(m: Name, x: seq<Byte>, a: seq<Byte>, n: Name, y: seq<Byte>, b: seq<Byte>,
                          hash: seq<Byte> -> seq<Byte>)
    requires Sized(hash) && Field(m, x, hash) + a == Field(n, y, hash) + b
    requires |m| < Pow256(4) && |n| < Pow256(4) && |x| < Pow256(8) && |y| < Pow256(8)
    ensures m == n && |x| == |y| && hash(x) == hash(y) && a == b
  {
    var k, l := LittleEndian(|m|, 4), LittleEndian(|n|, 4);
    var u, v := LittleEndian(|x|, 8), LittleEndian(|y|, 8);
    FieldNested(m, x, a, hash);
    FieldNested(n, y, b, hash);
    Suffixes(k, m + (u + (hash(x) + a)), l, n + (v + (hash(y) + b)));
    LittleEndianInjective(|m|, |n|, 4);
    Suffixes(m, u + (hash(x) + a), n, v + (hash(y) + b));
    Suffixes(u, hash(x) + a, v, hash(y) + b);
    LittleEndianInjective(|x|, |y|, 8);
    Suffixes(hash(x), a, hash(y), b);
  }

  lemma {:induction false} FieldsDecode(f: Files, g: Files, xs: seq<Name>, ys: seq<Name>, hash: seq<Byte> -> seq<Byte>)
    requires Sized(hash) && Encodable(f) && Encodable(g)
    requires (forall n :: n in xs ==> n in f) && (forall n :: n in ys ==> n in g)
    requires Fields(f, xs, hash) == Fields(g, ys, hash)
    ensures xs == ys && forall n :: n in xs ==> |f[n]| == |g[n]| && hash(f[n]) == hash(g[n])
  {
    if xs != [] && ys != [] {
      FieldIsPrefixFree(xs[0], f[xs[0]], Fields(f, xs[1..], hash), ys[0], g[ys[0]], Fields(g, ys[1..], hash), hash);
      FieldsDecode(f, g, xs[1..], ys[1..], hash);
      assert xs == [xs[0]] + xs[1..] && ys == [ys[0]] + ys[1..];
    }
  }

  /** Equal preimages: the same names, lengths and content hashes. */
  lemma EqualPreimages(f: Files, g: Files, hash: seq<Byte> -> seq<Byte>)
    requires Sized(hash) && Encodable(f) && Encodable(g) && Preimage(f, hash) == Preimage(g, hash)
    ensures f.Keys - {SIGNATURE} == g.Keys - {SIGNATURE}
    ensures forall n :: n in f && n != SIGNATURE ==> n in g && |f[n]| == |g[n]| && hash(f[n]) == hash(g[n])
  {
    var xs, ys := Ordered(f.Keys - {SIGNATURE}), Ordered(g.Keys - {SIGNATURE});
    Suffixes(PREFIX, Fields(f, xs, hash), PREFIX, Fields(g, ys, hash));
    FieldsDecode(f, g, xs, ys, hash);
    assert forall n :: n in f.Keys - {SIGNATURE} <==> n in xs;
    assert forall n :: n in g.Keys - {SIGNATURE} <==> n in ys;
  }

  lemma {:induction false} SameFields(f: Files, g: Files, names: seq<Name>, hash: seq<Byte> -> seq<Byte>)
    requires forall n :: n in names ==> n in f && n in g && f[n] == g[n]
    ensures Fields(f, names, hash) == Fields(g, names, hash)
  {
    if names != [] {
      SameFields(f, g, names[1..], hash);
    }
  }

  /** Agreeing files have one digest; and equal digests mean agreement, unless two contents or the two
      preimages themselves collide in the hash. */
  lemma DigestIdentifiesFiles(f: Files, g: Files, hash: seq<Byte> -> seq<Byte>)
    requires Sized(hash) && Encodable(f) && Encodable(g)
    ensures AgreeButSignature(f, g) ==> hash(Preimage(f, hash)) == hash(Preimage(g, hash))
    ensures hash(Preimage(f, hash)) == hash(Preimage(g, hash)) ==>
      AgreeButSignature(f, g) || Collision(hash, Preimage(f, hash), Preimage(g, hash))
      || exists n :: n in f && n in g && Collision(hash, f[n], g[n])
  {
    if AgreeButSignature(f, g) {
      assert (f - {SIGNATURE}).Keys == f.Keys - {SIGNATURE} && (g - {SIGNATURE}).Keys == g.Keys - {SIGNATURE};
      forall n | n in Ordered(f.Keys - {SIGNATURE}) ensures n in f && n in g && f[n] == g[n] {
        assert f[n] == (f - {SIGNATURE})[n] && g[n] == (g - {SIGNATURE})[n];
      }
      SameFields(f, g, Ordered(f.Keys - {SIGNATURE}), hash);
    } else if Preimage(f, hash) == Preimage(g, hash) {
      EqualPreimages(f, g, hash);
      assert (f - {SIGNATURE}).Keys == f.Keys - {SIGNATURE} == g.Keys - {SIGNATURE} == (g - {SIGNATURE}).Keys;
      var n :| n in f.Keys - {SIGNATURE} && f[n] != g[n];
      assert Collision(hash, f[n], g[n]);
    }
  }

  /** An accepted archive's names and contents always fit their length fields. */
  lemma AcceptedIsEncodable(bytes: seq<Byte>, listing: Listing, plain: seq<Byte> -> bool, o: Opened)
    requires Accepted(bytes, listing, plain, o)
    ensures Encodable(o.files)
  {
    assert Pow256(4) == 0x1_0000_0000 && Pow256(8) == 0x1_0000_0000_0000_0000;
    forall n | n in o.files ensures |n| < Pow256(4) && |o.files[n]| < Pow256(8) {
      assert n in Names(listing.entries);
      var e :| e in listing.entries && e.name == n;
      assert Placed(bytes, e, plain, o);
    }
  }

  /** Two accepted packages with one payload digest hold the same files but for the signature, unless
      the hash collides on them. */
  lemma SignedPayloadFixesFiles(b: seq<Byte>, c: seq<Byte>, l: Listing, m: Listing, plain: seq<Byte> -> bool,
                                o: Opened, p: Opened, hash: seq<Byte> -> seq<Byte>)
    requires Sized(hash) && Accepted(b, l, plain, o) && Accepted(c, m, plain, p)
    requires hash(Preimage(o.files, hash)) == hash(Preimage(p.files, hash))
    ensures AgreeButSignature(o.files, p.files) || Collision(hash, Preimage(o.files, hash), Preimage(p.files, hash))
      || exists n :: n in o.files && n in p.files && Collision(hash, o.files[n], p.files[n])
  {
    AcceptedIsEncodable(b, l, plain, o);
    AcceptedIsEncodable(c, m, plain, p);
    DigestIdentifiesFiles(o.files, p.files, hash);
  }
}
