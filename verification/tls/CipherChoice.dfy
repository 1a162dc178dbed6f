/**
  Choosing the cipher for a connection (handshake_server.cc): by the client's preference,
  or by the server's with groups of equal preference in which the client's decides.
 */
module CipherChoice {
  import opened Wrappers
  import opened Bits

  datatype KeyExchange = KxRsa | KxEcdhe | KxPsk | KxGeneric
  datatype Auth = AuRsa | AuEcdsa | AuPsk | AuGeneric
  datatype KeyType = RsaKey | EcdsaKey | Ed25519Key

  datatype Cipher = Cipher(value: nat, minVersion: nat, maxVersion: nat, keyExchange: KeyExchange, auth: Auth)

  /** What of the server's configuration and the client's hello bears on the choice. */
  datatype Config = Config(version: nat, certificate: Option<KeyType>, sharedGroup: bool, pskCallback: bool)

  function AuthForKey(key: KeyType): Auth { if key == RsaKey then AuRsa else AuEcdsa }

  predicate KeyExchangeCompatible(config: Config, k: KeyExchange) {
    || (k == KxRsa && config.certificate == Some(RsaKey))
    || (k == KxEcdhe && config.sharedGroup)
    || (k == KxPsk && config.pskCallback)
  }

  predicate AuthCompatible(config: Config, a: Auth) {
    || (config.certificate.Some? && a == AuthForKey(config.certificate.value))
    || (a == AuPsk && config.pskCallback)
  }

  predicate Usable(config: Config, c: Cipher) {
    && c.minVersion <= config.version <= c.maxVersion
    && KeyExchangeCompatible(config, c.keyExchange) && AuthCompatible(config, c.auth)
  }

  predicate Shared(config: Config, allow: seq<Cipher>, c: Cipher) { Usable(config, c) && c in allow }

  // ----- Ranks

  /** The place of a cipher in a list, counted from its first occurrence. */
  function Place(list: seq<Cipher>, c: Cipher): (k: nat)
    requires c in list
    ensures k < |list| && list[k] == c && c !in list[..k]
  {
    if list[0] == c then 0
    else
      assert forall k :: 0 < k < |list| ==> list[k] == list[1..][k - 1];
      var k := Place(list[1..], c) + 1;
      assert list[..k] == [list[0]] + list[1..][..k - 1];
      k
  }

  /** Which group of equal preference a position belongs to: a flag that is off ends a group. */
  function Group(inGroup: seq<bool>, i: nat): nat
    requires i <= |inGroup|
  {
    if i == 0 then 0 else Group(inGroup, i - 1) + if inGroup[i - 1] then 0 else 1
  }

  /** The group a position is in comes to an end. */
  predicate Ends(inGroup: seq<bool>, i: nat) { exists k :: i <= k < |inGroup| && !inGroup[k] }

  lemma {:induction false} GroupsRise(inGroup: seq<bool>, i: nat, j: nat)
    requires i <= j <= |inGroup|
    ensures Group(inGroup, i) <= Group(inGroup, j)
    ensures Group(inGroup, i) == Group(inGroup, j) <==> forall k :: i <= k < j ==> inGroup[k]
  {
    if i < j {
      GroupsRise(inGroup, i, j - 1);
    }
  }

  // ----- The specification

  /** A position no shared one beats: none in an earlier group, none in its own that the other side prefers. */
  predicate Best(config: Config, prio: seq<Cipher>, inGroup: seq<bool>, allow: seq<Cipher>, i: nat)
    requires |inGroup| == |prio|
  {
    && i < |prio| && Shared(config, allow, prio[i])
    && forall j :: 0 <= j < |prio| && Shared(config, allow, prio[j]) ==>
         && Group(inGroup, i) <= Group(inGroup, j)
         && (Group(inGroup, i) == Group(inGroup, j) ==> Place(allow, prio[i]) <= Place(allow, prio[j]))
  }

  /** What the choice must be. */
  ghost predicate Chosen(config: Config, prio: seq<Cipher>, inGroup: seq<bool>, allow: seq<Cipher>, r: Option<Cipher>)
    requires |inGroup| == |prio|
  {
    match r
    case Some(c) => exists i: nat :: Best(config, prio, inGroup, allow, i) && Ends(inGroup, i) && c == prio[i]
    case None => forall i :: 0 <= i < |prio| && Shared(config, allow, prio[i]) ==> !Ends(inGroup, i)
  }

  /** There is only one choice. */
  lemma ChosenOnce(config: Config, prio: seq<Cipher>, inGroup: seq<bool>, allow: seq<Cipher>,
                   r: Option<Cipher>, r': Option<Cipher>)
    requires |inGroup| == |prio|
    requires Chosen(config, prio, inGroup, allow, r) && Chosen(config, prio, inGroup, allow, r')
    ensures r == r'
  {
    if r.Some? && r'.Some? {
      var i: nat :| Best(config, prio, inGroup, allow, i) && Ends(inGroup, i) && r.value == prio[i];
      var j: nat :| Best(config, prio, inGroup, allow, j) && Ends(inGroup, j) && r'.value == prio[j];
      assert Place(allow, prio[i]) == Place(allow, prio[j]);
    }
  }

  // ----- The loop

  /** What the loop has found before position n: everything shared is in the open group, and `least` is its least place. */
  predicate Scanned(config: Config, prio: seq<Cipher>, inGroup: seq<bool>, allow: seq<Cipher>, n: nat, least: int)
    requires |inGroup| == |prio| && n <= |prio|
  {
    && (forall j :: 0 <= j < n && Shared(config, allow, prio[j]) ==>
          Group(inGroup, j) == Group(inGroup, n) && 0 <= least <= Place(allow, prio[j]))
    && (least == -1
        || exists j :: 0 <= j < n && Shared(config, allow, prio[j]) && least == Place(allow, prio[j]))
  }

  /** Where the open group ends, its least place is the best there is. */
  lemma {:induction false} EndIsBest(config: Config, prio: seq<Cipher>, inGroup: seq<bool>, allow: seq<Cipher>, n: nat, least: int)
    requires |inGroup| == |prio| && n < |prio| && !inGroup[n] && least != -1
    requires forall j :: 0 <= j <= n && Shared(config, allow, prio[j]) ==>
               Group(inGroup, j) == Group(inGroup, n) && least <= Place(allow, prio[j])
    requires exists j :: 0 <= j <= n && Shared(config, allow, prio[j]) && least == Place(allow, prio[j])
    ensures 0 <= least < |allow| && Chosen(config, prio, inGroup, allow, Some(allow[least]))
  {
    var i :| 0 <= i <= n && Shared(config, allow, prio[i]) && least == Place(allow, prio[i]);
    forall j | 0 <= j < |prio| && Shared(config, allow, prio[j])
      ensures Group(inGroup, i) <= Group(inGroup, j)
      ensures Group(inGroup, i) == Group(inGroup, j) ==> least <= Place(allow, prio[j])
    {
      if j > n {
        GroupsRise(inGroup, n, j);
      }
    }
    assert Best(config, prio, inGroup, allow, i) && Ends(inGroup, i);
  }

  /** Nothing shared before n in a group that ends before n; so nothing shared in one that ends at all. */
  lemma OpenNeverEnds(config: Config, prio: seq<Cipher>, inGroup: seq<bool>, allow: seq<Cipher>, least: int)
    requires |inGroup| == |prio| && Scanned(config, prio, inGroup, allow, |prio|, least)
    ensures Chosen(config, prio, inGroup, allow, None)
  {
    forall i | 0 <= i < |prio| && Shared(config, allow, prio[i])
      ensures !Ends(inGroup, i)
    {
      GroupsRise(inGroup, i, |prio|);
    }
  }

  /** The flags of a preference list; no flags are flags that are all off. */
  function Flags(inGroup: Option<seq<bool>>, n: nat): (flags: seq<bool>)
    requires inGroup.Some? ==> |inGroup.value| == n
    ensures |flags| == n && (inGroup.None? ==> forall i :: 0 <= i < n ==> !flags[i])
  {
    if inGroup.Some? then inGroup.value else seq(n, _ => false)
  }

  /** The loop of ssl3_choose_cipher. */
  method ChooseFrom(config: Config, prio: seq<Cipher>, inGroup: Option<seq<bool>>, allow: seq<Cipher>)
    returns (r: Option<Cipher>)
    requires inGroup.Some? ==> |inGroup.value| == |prio|
    ensures Chosen(config, prio, Flags(inGroup, |prio|), allow, r)
  {
    ghost var flags := Flags(inGroup, |prio|);
    var groupMin := -1;
    for i := 0 to |prio|
      invariant Scanned(config, prio, flags, allow, i, groupMin)
      invariant inGroup.None? ==> groupMin == -1
    {
      var c := prio[i];
      if Usable(config, c) && c in allow {
        var index := Place(allow, c);
        if inGroup.Some? && inGroup.value[i] {
          if groupMin == -1 || groupMin > index {
            groupMin := index;
          }
        } else {
          if groupMin != -1 && groupMin < index {
            index := groupMin;
          }
          EndIsBest(config, prio, flags, allow, i, index);
          return Some(allow[index]);
        }
      }
      if inGroup.Some? && !inGroup.value[i] && groupMin != -1 {
        EndIsBest(config, prio, flags, allow, i, groupMin);
        return Some(allow[groupMin]);
      }
    }
    OpenNeverEnds(config, prio, flags, allow, groupMin);
    return None;
  }

  // ----- What the two ways of choosing come to

  /** The flags of a well-formed list end its last group. */
  predicate WellFormed(inGroup: seq<bool>) { inGroup == [] || !inGroup[|inGroup| - 1] }

  /** With well-formed flags a cipher is found exactly where one is shared. */
  lemma FoundIfShared(config: Config, prio: seq<Cipher>, inGroup: seq<bool>, allow: seq<Cipher>, r: Option<Cipher>)
    requires |inGroup| == |prio| && Chosen(config, prio, inGroup, allow, r) && WellFormed(inGroup)
    ensures r.Some? <==> exists c :: c in prio && Shared(config, allow, c)
  {
    if r.Some? {
      var i: nat :| Best(config, prio, inGroup, allow, i) && Ends(inGroup, i) && r.value == prio[i];
      assert prio[i] in prio && Shared(config, allow, prio[i]);
    } else {
      forall i | 0 <= i < |prio|
        ensures !Shared(config, allow, prio[i])
      {
        assert !inGroup[|prio| - 1] && Ends(inGroup, i);
      }
    }
  }

  /** For any lists none is found exactly where every shared cipher lies in a group that does not end. */
  lemma NoneExactly(config: Config, prio: seq<Cipher>, inGroup: seq<bool>, allow: seq<Cipher>, r: Option<Cipher>)
    requires |inGroup| == |prio| && Chosen(config, prio, inGroup, allow, r)
    ensures r == None <==>
            forall i :: 0 <= i < |prio| && Shared(config, allow, prio[i]) ==> forall k :: i <= k < |prio| ==> inGroup[k]
  {
    if r.Some? {
      var i: nat :| Best(config, prio, inGroup, allow, i) && Ends(inGroup, i) && r.value == prio[i];
      assert Shared(config, allow, prio[i]);
    } else {
      forall i | 0 <= i < |prio| && Shared(config, allow, prio[i])
        ensures forall k :: i <= k < |prio| ==> inGroup[k]
      {
        assert !Ends(inGroup, i);
      }
    }
  }

  /** So flags that are not well-formed hide a cipher that is shared, if the client offers only the last one. */
  lemma UnendedGroupHides(config: Config, prio: seq<Cipher>, inGroup: seq<bool>, r: Option<Cipher>)
    requires |inGroup| == |prio| && !WellFormed(inGroup)
    requires Usable(config, prio[|prio| - 1]) && prio[|prio| - 1] !in prio[..|prio| - 1]
    requires Chosen(config, prio, inGroup, [prio[|prio| - 1]], r)
    ensures r == None && Shared(config, [prio[|prio| - 1]], prio[|prio| - 1])
  {
    var n := |prio| - 1;
    assert forall i :: 0 <= i < n ==> prio[i] in prio[..n];
    assert !Ends(inGroup, n);
  }

  /** Without groups it is the first of the deciding side's ciphers that is shared. */
  lemma UngroupedIsFirst(config: Config, prio: seq<Cipher>, allow: seq<Cipher>, r: Option<Cipher>)
    requires Chosen(config, prio, Flags(None, |prio|), allow, r)
    ensures match r
            case Some(c) => exists i :: 0 <= i < |prio| && prio[i] == c && Shared(config, allow, c)
                                        && forall j :: 0 <= j < i ==> !Shared(config, allow, prio[j])
            case None => forall j :: 0 <= j < |prio| ==> !Shared(config, allow, prio[j])
  {
    var flags := Flags(None, |prio|);
    if r.Some? {
      var i: nat :| Best(config, prio, flags, allow, i) && Ends(flags, i) && r.value == prio[i];
      forall j | 0 <= j < i
        ensures !Shared(config, allow, prio[j])
      {
        GroupsRise(flags, j, i);
      }
    } else {
      assert forall i :: 0 <= i < |prio| && !flags[i] ==> Ends(flags, i);
    }
  }

  // ----- The client's list

  function Word(a: byte, b: byte): nat { a as nat * 256 + b as nat }

  /** The ciphers a list of two-byte values names, those unknown left out. */
  function Named(known: map<nat, Cipher>, bytes: seq<byte>): seq<Cipher> {
    if |bytes| < 2 then []
    else
      var value := Word(bytes[0], bytes[1]);
      (if value in known then [known[value]] else []) + Named(known, bytes[2..])
  }

  lemma NamedStep(known: map<nat, Cipher>, before: seq<Cipher>, rest: seq<byte>)
    requires |rest| >= 2
    ensures var value := Word(rest[0], rest[1]);
            before + Named(known, rest)
            == (if value in known then before + [known[value]] else before) + Named(known, rest[2..])
  {
  }

  /** ssl_parse_client_cipher_list: nothing for a list with half a value at its end. */
  method ParseCipherList(known: map<nat, Cipher>, bytes: seq<byte>) returns (r: Option<seq<Cipher>>)
    ensures r == if |bytes| % 2 == 0 then Some(Named(known, bytes)) else None
  {
    var ciphers, rest := [], bytes;
    while rest != []
      invariant |rest| <= |bytes| && |rest| % 2 == |bytes| % 2
      invariant ciphers + Named(known, rest) == Named(known, bytes)
      decreases |rest|
    {
      if |rest| < 2 {
        return None;
      }
      var value := Word(rest[0], rest[1]);
      NamedStep(known, ciphers, rest);
      if value in known {
        ciphers := ciphers + [known[value]];
      }
      rest := rest[2..];
    }
    assert ciphers + [] == ciphers;
    return Some(ciphers);
  }

  /** ssl3_choose_cipher: whose preference decides, and nothing for a malformed list. */
  method ChooseCipher(config: Config, known: map<nat, Cipher>, hello: seq<byte>, serverPreference: bool,
                      ciphers: seq<Cipher>, inGroup: Option<seq<bool>>)
    returns (r: Option<Cipher>)
    requires inGroup.Some? ==> |inGroup.value| == |ciphers|
    ensures |hello| % 2 == 1 ==> r == None
    ensures |hello| % 2 == 0 ==>
              var offered := Named(known, hello);
              if serverPreference then Chosen(config, ciphers, Flags(inGroup, |ciphers|), offered, r)
              else Chosen(config, offered, Flags(None, |offered|), ciphers, r)
  {
    var offered := ParseCipherList(known, hello);
    if offered.None? {
      return None;
    }
    if serverPreference {
      r := ChooseFrom(config, ciphers, inGroup, offered.value);
    } else {
      r := ChooseFrom(config, offered.value, None, ciphers);
    }
  }
}
