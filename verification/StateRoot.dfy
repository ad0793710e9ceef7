/** The byte string the state-root digest is taken of. */
module StateRoot {
  import opened Bytes
  import opened Chain
  import opened Ledger

  /** Lexicographic order on byte strings of one length. */
  predicate Precedes(a: seq<Byte>, b: seq<Byte>)
    requires |a| == |b|
  {
    a != [] && (a[0] < b[0] || (a[0] == b[0] && Precedes(a[1..], b[1..])))
  }

  lemma {:induction false} PrecedesIsTotal(a: seq<Byte>, b: seq<Byte>)
    requires |a| == |b|
    ensures Precedes(a, b) || a == b || Precedes(b, a)
  {
    if a != [] {
      PrecedesIsTotal(a[1..], b[1..]);
      assert a == [a[0]] + a[1..] && b == [b[0]] + b[1..];
    }
  }

  /** The order is that of the numbers the strings denote, most significant byte first. */
  lemma {:induction false} PrecedesIffSmaller(a: seq<Byte>, b: seq<Byte>)
    requires |a| == |b|
    ensures Precedes(a, b) <==> Value(a) < Value(b)
  {
    if a != [] {
      var p := Pow256(|a| - 1);
      PrecedesIffSmaller(a[1..], b[1..]);
      ValueFromFront(a);
      ValueFromFront(b);
      ValueBound(a[1..]);
      ValueBound(b[1..]);
      LeadingByteDecides(a[0], Value(a[1..]), b[0], Value(b[1..]), p);
    }
  }

  lemma LeadingByteDecides(x: nat, r: nat, y: nat, t: nat, p: nat)
    requires r < p && t < p
    ensures x < y ==> x * p + r < y * p + t
    ensures y < x ==> y * p + t < x * p + r
  {
    if x < y {
      MulAtLeast(y - x, p);
      assert y * p == x * p + (y - x) * p;
    } else if y < x {
      MulAtLeast(x - y, p);
      assert x * p == y * p + (x - y) * p;
    }
  }

  lemma MulAtLeast(k: nat, p: nat)
    requires k >= 1
    ensures k * p >= p
  {
  }

  lemma {:induction false} PrecedesIsTransitive(a: seq<Byte>, b: seq<Byte>, c: seq<Byte>)
    requires |a| == |b| == |c|
    requires Precedes(a, b) && Precedes(b, c)
    ensures Precedes(a, c)
  {
    if a[0] == b[0] == c[0] {
      PrecedesIsTransitive(a[1..], b[1..], c[1..]);
    }
  }

  lemma {:induction false} PrecedesIsIrreflexive(a: seq<Byte>)
    ensures !Precedes(a, a)
  {
    if a != [] {
      PrecedesIsIrreflexive(a[1..]);
    }
  }

  ghost predicate StrictlySorted(keys: seq<Address>) {
    forall i, j :: 0 <= i < j < |keys| ==> Precedes(keys[i], keys[j])
  }

  ghost function Elements(keys: seq<Address>): set<Address> {
    set a | a in keys
  }

  ghost predicate Enumerates(keys: seq<Address>, of: set<Address>) {
    StrictlySorted(keys) && (forall a :: a in keys <==> a in of)
  }

  /** A set of addresses has only one strictly sorted enumeration. */
  lemma {:induction false} EnumerationIsUnique(s: seq<Address>, t: seq<Address>, of: set<Address>)
    requires Enumerates(s, of) && Enumerates(t, of)
    ensures s == t
  {
    assert s == [] <==> t == [] by {
      assert s != [] ==> s[0] in t;
      assert t != [] ==> t[0] in s;
    }
    if s != [] {
      FirstIsLeast(s, t, of);
      FirstIsLeast(t, s, of);
      TailEnumerates(s, of);
      TailEnumerates(t, of);
      PrecedesIsTransitive0(s[0], t[0]);
      EnumerationIsUnique(s[1..], t[1..], of - {s[0]});
      assert s == [s[0]] + s[1..] && t == [t[0]] + t[1..];
    }
  }

  lemma PrecedesIsTransitive0(a: Address, b: Address)
    ensures !(Precedes(a, b) && Precedes(b, a))
  {
    if Precedes(a, b) && Precedes(b, a) {
      PrecedesIsTransitive(a, b, a);
      PrecedesIsIrreflexive(a);
    }
  }

  lemma FirstIsLeast(s: seq<Address>, t: seq<Address>, of: set<Address>)
    requires Enumerates(s, of) && Enumerates(t, of)
    requires s != [] && t != []
    ensures s[0] == t[0] || Precedes(t[0], s[0])
  {
    assert s[0] in t;
    var i :| 0 <= i < |t| && t[i] == s[0];
  }

  lemma TailEnumerates(s: seq<Address>, of: set<Address>)
    requires Enumerates(s, of) && s != []
    ensures Enumerates(s[1..], of - {s[0]})
  {
    PrecedesIsIrreflexive(s[0]);
    forall a
      ensures a in s[1..] <==> a in of - {s[0]}
    {
      if a in of && a != s[0] {
        var i :| 0 <= i < |s| && s[i] == a;
        assert s[1..][i - 1] == a;
      }
    }
  }

  /** Insertion into a sorted list; addresses already present are not repeated. */
  function Insert(a: Address, keys: seq<Address>): seq<Address> {
    if keys == [] || Precedes(a, keys[0]) then [a] + keys
    else if a == keys[0] then keys
    else [keys[0]] + Insert(a, keys[1..])
  }

  lemma {:induction false} InsertEnumerates(a: Address, keys: seq<Address>, of: set<Address>)
    requires Enumerates(keys, of)
    ensures Enumerates(Insert(a, keys), of + {a})
    decreases |keys|
  {
    if keys == [] {
    } else if Precedes(a, keys[0]) {
      forall j | 1 <= j < |keys|
        ensures Precedes(a, keys[j])
      {
        PrecedesIsTransitive(a, keys[0], keys[j]);
      }
    } else if a != keys[0] {
      PrecedesIsTotal(a, keys[0]);
      TailEnumerates(keys, of);
      InsertEnumerates(a, keys[1..], of - {keys[0]});
      var rest := Insert(a, keys[1..]);
      forall j | 0 <= j < |rest|
        ensures Precedes(keys[0], rest[j])
      {
        assert rest[j] in rest;
        if rest[j] != a {
          assert rest[j] in keys[1..];
        }
      }
      assert forall x :: x in of + {a} <==> x == keys[0] || x in of - {keys[0]} + {a};
    }
  }

  lemma {:induction false} EnumerationExists(of: set<Address>)
    ensures exists keys :: Enumerates(keys, of)
    decreases |of|
  {
    if of == {} {
      assert Enumerates([], of);
    } else {
      var a :| a in of;
      EnumerationExists(of - {a});
      var keys :| Enumerates(keys, of - {a});
      InsertEnumerates(a, keys, of - {a});
      assert of - {a} + {a} == of;
    }
  }

  ghost function SortedKeys(of: set<Address>): (keys: seq<Address>)
    ensures Enumerates(keys, of)
  {
    EnumerationExists(of);
    var keys :| Enumerates(keys, of);
    keys
  }

  /** 20 bytes of address, 32 of balance and 8 of nonce. */
  function Record(a: Address, account: Account): (r: seq<Byte>)
    ensures |r| == 60
  {
    a + account.balance + BigEndian(account.nonce, 8)
  }

  function Records(keys: seq<Address>, m: Accounts): seq<Byte>
    requires forall a :: a in keys ==> a in m
  {
    if keys == [] then [] else Record(keys[0], m[keys[0]]) + Records(keys[1..], m)
  }

  /** Everything the digest sees. */
  ghost function Preimage(m: Accounts): seq<Byte> {
    Records(SortedKeys(m.Keys), m)
  }

  ghost function Root(blake3: Digest, m: Accounts): Hash {
    blake3(Preimage(m))
  }

  /** Where the parts of a record lie, and how its nonce reads. */
  lemma RecordLayout(a: Address, account: Account)
    ensures var r := Record(a, account);
      r[..20] == a && r[20..52] == account.balance && Value(r[52..]) == account.nonce
  {
    U64Limit();
    ValueOfBigEndian(account.nonce, 8);
    assert Record(a, account)[..20] == a && Record(a, account)[20..52] == account.balance;
    assert Record(a, account)[52..] == BigEndian(account.nonce, 8);
  }

  /** The k-th 60 bytes. */
  function Slice(fed: seq<Byte>, k: nat): (r: seq<Byte>)
    requires 60 * (k + 1) <= |fed|
    ensures |r| == 60
  {
    fed[60 * k..60 * (k + 1)]
  }

  /** The bytes are one slice of 60 for each account: its address, its balance and the 8 bytes of its nonce. */
  ghost predicate Tells(fed: seq<Byte>, m: Accounts, k: nat)
    requires 60 * (k + 1) <= |fed|
  {
    var r := Slice(fed, k);
    r[..20] in m && r[20..52] == m[r[..20]].balance && Value(r[52..]) == m[r[..20]].nonce
  }

  /** The addresses come as growing numbers. */
  ghost predicate Ascending(fed: seq<Byte>, j: nat, k: nat)
    requires 60 * (j + 1) <= |fed| && 60 * (k + 1) <= |fed|
  {
    Value(Slice(fed, j)[..20]) < Value(Slice(fed, k)[..20])
  }

  lemma {:induction false} RecordsLength(keys: seq<Address>, m: Accounts)
    requires forall a :: a in keys ==> a in m
    ensures |Records(keys, m)| == 60 * |keys|
    decreases |keys|
  {
    if keys != [] {
      RecordsLength(keys[1..], m);
    }
  }

  lemma {:induction false} SliceOfRecords(keys: seq<Address>, m: Accounts, k: nat)
    requires (forall a :: a in keys ==> a in m) && k < |keys|
    ensures |Records(keys, m)| == 60 * |keys|
    ensures Slice(Records(keys, m), k) == Record(keys[k], m[keys[k]])
    decreases |keys|
  {
    RecordsLength(keys, m);
    var first, rest := Record(keys[0], m[keys[0]]), Records(keys[1..], m);
    if k > 0 {
      SliceOfRecords(keys[1..], m, k - 1);
      SliceOfTail(first, rest, k);
      assert keys[1..][k - 1] == keys[k];
    }
  }

  lemma SliceOfTail(first: seq<Byte>, rest: seq<Byte>, k: nat)
    requires |first| == 60 && k > 0 && 60 * k <= |rest|
    ensures Slice(first + rest, k) == Slice(rest, k - 1)
  {
  }

  lemma {:induction false} EnumerationSize(keys: seq<Address>, of: set<Address>)
    requires Enumerates(keys, of)
    ensures |keys| == |of|
    decreases |keys|
  {
    if keys == [] {
      assert of == {};
    } else {
      TailEnumerates(keys, of);
      EnumerationSize(keys[1..], of - {keys[0]});
    }
  }

  /** Everything the digest sees, said without the sort: a record of 60 bytes for each account, the k-th that of the
      k-th smallest address read as a big-endian number. */
  lemma RootReadsSorted(m: Accounts)
    ensures |Preimage(m)| == 60 * |m|
    ensures forall k: nat :: k < |m| ==> Tells(Preimage(m), m, k)
    ensures forall j: nat, k: nat :: j < k < |m| ==> Ascending(Preimage(m), j, k)
  {
    var keys := SortedKeys(m.Keys);
    EnumerationSize(keys, m.Keys);
    RecordsLength(keys, m);
    assert |m.Keys| == |m|;
    forall k: nat | k < |m|
      ensures Tells(Preimage(m), m, k)
    {
      SliceOfRecords(keys, m, k);
      RecordLayout(keys[k], m[keys[k]]);
    }
    forall j: nat, k: nat | j < k < |m|
      ensures Ascending(Preimage(m), j, k)
    {
      SlicesAscend(keys, m, j, k);
    }
  }

  lemma SlicesAscend(keys: seq<Address>, m: Accounts, j: nat, k: nat)
    requires StrictlySorted(keys) && (forall a :: a in keys ==> a in m) && j < k < |keys|
    ensures |Records(keys, m)| == 60 * |keys| && Ascending(Records(keys, m), j, k)
  {
    SliceOfRecords(keys, m, j);
    SliceOfRecords(keys, m, k);
    RecordLayout(keys[j], m[keys[j]]);
    RecordLayout(keys[k], m[keys[k]]);
    PrecedesIffSmaller(keys[j], keys[k]);
  }

  lemma RecordInjective(a: Address, x: Account, b: Address, y: Account)
    requires Record(a, x) == Record(b, y)
    ensures a == b && x == y
  {
    var r, s := Record(a, x), Record(b, y);
    assert r[..20] == a && s[..20] == b;
    assert r[20..52] == x.balance && s[20..52] == y.balance;
    assert r[52..] == BigEndian(x.nonce, 8) && s[52..] == BigEndian(y.nonce, 8);
    U64Limit();
    BigEndianInjective(x.nonce, y.nonce, 8);
  }

  lemma {:induction false} RecordsInjective(s: seq<Address>, m: Accounts, t: seq<Address>, n: Accounts)
    requires forall a :: a in s ==> a in m
    requires forall a :: a in t ==> a in n
    requires Records(s, m) == Records(t, n)
    ensures s == t
    ensures forall a :: a in s ==> m[a] == n[a]
    decreases |s|
  {
    if s == [] {
      assert t == [];
    } else {
      assert t != [];
      var r, q := Record(s[0], m[s[0]]), Record(t[0], n[t[0]]);
      assert Records(s, m)[..60] == r && Records(t, n)[..60] == q;
      assert Records(s, m)[60..] == Records(s[1..], m) && Records(t, n)[60..] == Records(t[1..], n);
      RecordInjective(s[0], m[s[0]], t[0], n[t[0]]);
      RecordsInjective(s[1..], m, t[1..], n);
      assert s == [s[0]] + s[1..] && t == [t[0]] + t[1..];
    }
  }

  /** Equal bytes under the digest mean equal account maps, and conversely. */
  lemma PreimageInjective(m: Accounts, n: Accounts)
    ensures Preimage(m) == Preimage(n) <==> m == n
  {
    if Preimage(m) == Preimage(n) {
      var s, t := SortedKeys(m.Keys), SortedKeys(n.Keys);
      RecordsInjective(s, m, t, n);
      assert forall a :: a in m <==> a in s;
      assert forall a :: a in n <==> a in t;
      assert m.Keys == n.Keys;
    }
  }

  /** Whatever order the map is iterated in, sorting its keys gives the same bytes. */
  lemma PreimageIgnoresOrder(m: Accounts, keys: seq<Address>)
    requires Enumerates(keys, m.Keys)
    ensures Records(keys, m) == Preimage(m)
  {
    EnumerationIsUnique(keys, SortedKeys(m.Keys), m.Keys);
  }

  /** The library sort, applied to keys that arrive in any order. */
  method Sort(keys: seq<Address>) returns (sorted: seq<Address>)
    ensures Enumerates(sorted, Elements(keys))
  {
    sorted := [];
    for i := 0 to |keys|
      invariant Enumerates(sorted, Elements(keys[..i]))
    {
      InsertEnumerates(keys[i], sorted, Elements(keys[..i]));
      assert keys[..i + 1] == keys[..i] + [keys[i]];
      assert Elements(keys[..i]) + {keys[i]} == Elements(keys[..i + 1]);
      sorted := Insert(keys[i], sorted);
    }
    assert keys[..|keys|] == keys;
  }

  /** The keys of the map in some order, one by one. */
  method CollectKeys(m: Accounts) returns (keys: seq<Address>)
    ensures Elements(keys) == m.Keys
  {
    keys := [];
    var rest := m.Keys;
    while rest != {}
      invariant rest <= m.Keys
      invariant Elements(keys) == m.Keys - rest
    {
      var a :| a in rest;
      assert Elements(keys + [a]) == Elements(keys) + {a};
      keys := keys + [a];
      rest := rest - {a};
    }
  }

  /** Feeding one account in three parts feeds its record. */
  lemma FeedRecord(fed: seq<Byte>, keys: seq<Address>, m: Accounts)
    requires keys != [] && forall a :: a in keys ==> a in m
    ensures var a := keys[0];
      fed + a + m[a].balance + BigEndian(m[a].nonce, 8) + Records(keys[1..], m) == fed + Records(keys, m)
  {
    var a := keys[0];
    assert fed + a + m[a].balance + BigEndian(m[a].nonce, 8) == fed + Record(a, m[a]);
    assert fed + Record(a, m[a]) + Records(keys[1..], m) == fed + (Record(a, m[a]) + Records(keys[1..], m));
  }

  /** Sort the addresses, feed each record to the hasher, take the digest. */
  method CalculateStateRoot(blake3: Digest, m: Accounts) returns (root: Hash)
    ensures root == Root(blake3, m) == blake3(Preimage(m))
  {
    var addresses := CollectKeys(m);
    addresses := Sort(addresses);
    var fed: seq<Byte> := [];
    for i := 0 to |addresses|
      invariant fed + Records(addresses[i..], m) == Records(addresses, m)
    {
      var a := addresses[i];
      FeedRecord(fed, addresses[i..], m);
      fed := fed + a;
      fed := fed + m[a].balance;
      fed := fed + BigEndian(m[a].nonce, 8);
      assert addresses[i..][1..] == addresses[i + 1..];
    }
    assert addresses[|addresses|..] == [] && fed + [] == fed;
    PreimageIgnoresOrder(m, addresses);
    root := blake3(fed);
  }
}
