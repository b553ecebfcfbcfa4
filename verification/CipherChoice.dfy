/** The server's choice of cipher suite among the client's. */
module CipherChoice {
  import opened Wrappers
  import opened Bits

  /** SSL_CIPHER, as far as the choice depends on it. */
  datatype Cipher = Cipher(id: nat, minVersion: nat, maxVersion: nat, mkey: nat, auth: nat)

  /** What the server can do: the version agreed on, and its key exchange and signature masks. */
  datatype Server = Server(version: nat, maskK: nat, maskA: nat)

  predicate Compatible(c: Cipher, server: Server) {
    && c.minVersion <= server.version <= c.maxVersion
    && And(c.mkey, server.maskK) != 0 && And(c.auth, server.maskA) != 0
  }

  /** The place of a cipher in a list, or its length. */
  function IndexOf(list: seq<Cipher>, c: Cipher): (k: nat)
    ensures k <= |list| && (k < |list| ==> list[k] == c) && (k == |list| <==> c !in list)
  {
    if list == [] then 0 else if list[0] == c then 0 else 1 + IndexOf(list[1..], c)
  }

  /** Preference groups: flag 1 says that the next cipher is in the same group. Without flags
      every cipher is a group of its own. */
  function Flag(flags: Option<seq<nat>>, i: nat): nat
    requires flags.Some? ==> i < |flags.value|
  {
    if flags.Some? then flags.value[i] else 0
  }

  /** The number of groups finished before position i. */
  function GroupNo(flags: Option<seq<nat>>, i: nat): nat
    requires flags.Some? ==> i <= |flags.value|
  {
    if i == 0 then 0 else GroupNo(flags, i - 1) + if Flag(flags, i - 1) == 1 then 0 else 1
  }

  lemma {:induction false} GroupNoMonotone(flags: Option<seq<nat>>, i: nat, j: nat)
    requires i <= j && (flags.Some? ==> j <= |flags.value|)
    ensures GroupNo(flags, i) <= GroupNo(flags, j)
    decreases j
  {
    if i < j {
      GroupNoMonotone(flags, i, j - 1);
    }
  }

  /** The lists the choice works on. */
  datatype Lists = Lists(prio: seq<Cipher>, flags: Option<seq<nat>>, allow: seq<Cipher>) {
    /** Flags match the list, and the last cipher ends its group. */
    predicate Wf() {
      flags.Some? ==>
        && |flags.value| == |prio|
        && (forall f :: f in flags.value ==> f == 0 || f == 1)
        && (prio != [] ==> flags.value[|prio| - 1] == 0)
    }

    /** The cipher at position i can be used and is known to both sides. */
    predicate Shared(server: Server, i: nat)
      requires i < |prio|
    {
      Compatible(prio[i], server) && prio[i] in allow
    }

    function Rank(i: nat): nat
      requires i < |prio|
    {
      IndexOf(allow, prio[i])
    }

    /** Position i is the best choice: in the first group with a shared cipher and, within that
        group, earliest in the other side's list. */
    ghost predicate Best(server: Server, i: nat)
      requires Wf() && i < |prio|
    {
      && Shared(server, i)
      && forall j :: 0 <= j < |prio| && Shared(server, j) ==> NotAfter(i, j)
    }

    ghost predicate NotAfter(i: nat, j: nat)
      requires Wf() && i < |prio| && j < |prio|
    {
      GroupNo(flags, i) < GroupNo(flags, j) || (GroupNo(flags, i) == GroupNo(flags, j) && Rank(i) <= Rank(j))
    }
  }

  /** The order of preference: the server's with its groups, or the client's. */
  function Prefer(serverPreference: bool, serverList: seq<Cipher>, groups: Option<seq<nat>>,
                  clientList: seq<Cipher>): Lists {
    if serverPreference then Lists(serverList, groups, clientList) else Lists(clientList, None, serverList)
  }

  /** sk_SSL_CIPHER_find. */
  method Find(list: seq<Cipher>, c: Cipher) returns (found: bool, index: nat)
    ensures found <==> c in list
    ensures index == IndexOf(list, c)
  {
    index := 0;
    assert list[0..] == list;
    while index < |list|
      invariant index <= |list|
      invariant IndexOf(list, c) == index + IndexOf(list[index..], c)
    {
      if list[index] == c {
        return true, index;
      }
      assert list[index..][1..] == list[index + 1..];
      index := index + 1;
    }
    assert list[index..] == [];
    return false, index;
  }

  /** ssl3_choose_cipher, from the two lists on. */
  method ChooseCipher(lists: Lists, server: Server) returns (choice: Option<Cipher>)
    requires lists.Wf()
    ensures choice == None <==> forall i :: 0 <= i < |lists.prio| ==> !lists.Shared(server, i)
    ensures choice.Some? ==> exists i :: 0 <= i < |lists.prio| && lists.Best(server, i) && choice.value == lists.prio[i]
  {
    hide Compatible, GroupNo;
    var prio, allow := lists.prio, lists.allow;
    var groupMin: int := -1;
    ghost var best := 0;
    var i := 0;
    while i < |prio|
      invariant i <= |prio|
      invariant OneGroup(lists, server, i)
      invariant groupMin == -1 ==> NoneBefore(lists, server, i)
      invariant groupMin != -1 ==> BestBefore(lists, server, i, best) && groupMin == lists.Rank(best) && i < |prio|
    {
      var c := prio[i];
      GroupStep(lists, server, i);
      if Compatible(c, server) {
        var found, cipherIndex := Find(allow, c);
        if found {
          assert lists.Shared(server, i) && lists.Rank(i) == cipherIndex;
          if Flag(lists.flags, i) == 1 {
            if groupMin == -1 || groupMin > cipherIndex {
              groupMin, best := cipherIndex, i;
            }
          } else {
            if groupMin != -1 && groupMin < cipherIndex {
              cipherIndex := groupMin;
            } else {
              best := i;
            }
            BestInGroup(lists, server, i, best);
            return Some(allow[cipherIndex]);
          }
        }
      }
      if Flag(lists.flags, i) == 0 && groupMin != -1 {
        BestInGroup(lists, server, i, best);
        return Some(allow[groupMin]);
      }
      i := i + 1;
    }
    return None;
  }

  /** A cipher both sides list and the server can use. */
  predicate Common(c: Cipher, serverList: seq<Cipher>, clientList: seq<Cipher>, server: Server) {
    c in serverList && c in clientList && Compatible(c, server)
  }

  /** The choice as the option for server preference directs it. Whether there is one does not
      depend on the option: there is none exactly if no cipher is common. The client's preference
      means the first common cipher of the client's list. */
  method ChooseBy(serverPreference: bool, serverList: seq<Cipher>, groups: Option<seq<nat>>, clientList: seq<Cipher>,
                  server: Server)
    returns (choice: Option<Cipher>)
    requires Lists(serverList, groups, clientList).Wf()
    ensures choice == None <==> forall c :: !Common(c, serverList, clientList, server)
    ensures choice.Some? ==> Common(choice.value, serverList, clientList, server)
    ensures choice.Some? && serverPreference ==>
              exists i :: 0 <= i < |serverList| && Lists(serverList, groups, clientList).Best(server, i)
                && choice.value == serverList[i]
    ensures choice.Some? && !serverPreference ==>
              forall c :: Common(c, serverList, clientList, server) ==>
                IndexOf(clientList, choice.value) <= IndexOf(clientList, c)
  {
    hide Compatible;
    var lists := Prefer(serverPreference, serverList, groups, clientList);
    choice := ChooseCipher(lists, server);
    SharedIsCommon(lists, server);
    assert forall c :: Common(c, lists.prio, lists.allow, server) <==> Common(c, serverList, clientList, server);
    if choice.Some? {
      ghost var i :| 0 <= i < |lists.prio| && lists.Best(server, i) && choice.value == lists.prio[i];
      assert lists.Shared(server, i);
      if !serverPreference {
        BestIsFirst(lists, server, i);
      }
    }
  }

  lemma {:induction false} SharedIsCommon(lists: Lists, server: Server)
    ensures (exists c :: Common(c, lists.prio, lists.allow, server)) <==>
              (exists i :: 0 <= i < |lists.prio| && lists.Shared(server, i))
  {
    hide Compatible;
    forall c | Common(c, lists.prio, lists.allow, server)
      ensures exists i :: 0 <= i < |lists.prio| && lists.Shared(server, i)
    {
      assert lists.Shared(server, IndexOf(lists.prio, c));
    }
    forall i | 0 <= i < |lists.prio| && lists.Shared(server, i)
      ensures exists c :: Common(c, lists.prio, lists.allow, server)
    {
      assert Common(lists.prio[i], lists.prio, lists.allow, server);
    }
  }

  /** Without groups the best choice is the first shared cipher of the list that has priority. */
  lemma {:induction false} BestIsFirst(lists: Lists, server: Server, i: nat)
    requires lists.flags == None && i < |lists.prio| && lists.Best(server, i)
    ensures forall c :: Common(c, lists.prio, lists.allow, server) ==>
              IndexOf(lists.prio, lists.prio[i]) <= IndexOf(lists.prio, c)
  {
    hide Compatible;
    forall c | Common(c, lists.prio, lists.allow, server)
      ensures IndexOf(lists.prio, lists.prio[i]) <= IndexOf(lists.prio, c)
    {
      var j := IndexOf(lists.prio, c);
      assert lists.Shared(server, j);
      EveryOneAGroup(i);
      EveryOneAGroup(j);
      IndexAtMost(lists.prio, i);
    }
  }

  lemma {:induction false} EveryOneAGroup(i: nat)
    ensures GroupNo(None, i) == i
  {
    if i > 0 {
      EveryOneAGroup(i - 1);
    }
  }

  lemma {:induction false} IndexAtMost(list: seq<Cipher>, i: nat)
    requires i < |list|
    ensures IndexOf(list, list[i]) <= i
  {
    if i > 0 {
      IndexAtMost(list[1..], i - 1);
    }
  }

  /** All shared ciphers before i are in the group i is in. */
  ghost predicate OneGroup(lists: Lists, server: Server, i: nat)
    requires lists.Wf() && i <= |lists.prio|
  {
    forall j :: 0 <= j < i && lists.Shared(server, j) ==> GroupNo(lists.flags, j) == GroupNo(lists.flags, i)
  }

  ghost predicate NoneBefore(lists: Lists, server: Server, i: nat)
    requires i <= |lists.prio|
  {
    forall j :: 0 <= j < i ==> !lists.Shared(server, j)
  }

  ghost predicate BestBefore(lists: Lists, server: Server, i: nat, best: nat)
    requires i <= |lists.prio|
  {
    && best < i && lists.Shared(server, best)
    && forall j :: 0 <= j < i && lists.Shared(server, j) ==> lists.Rank(best) <= lists.Rank(j)
  }

  lemma GroupStep(lists: Lists, server: Server, i: nat)
    requires lists.Wf() && i < |lists.prio|
    ensures GroupNo(lists.flags, i + 1) == GroupNo(lists.flags, i) + if Flag(lists.flags, i) == 1 then 0 else 1
    ensures i == |lists.prio| - 1 ==> Flag(lists.flags, i) == 0
    ensures Flag(lists.flags, i) == 0 || Flag(lists.flags, i) == 1
  {
    assert lists.flags.Some? ==> lists.flags.value[i] in lists.flags.value;
  }

  /** At the end of a group, the best so far is the best of all. */
  lemma {:induction false} BestInGroup(lists: Lists, server: Server, i: nat, best: nat)
    requires lists.Wf() && i < |lists.prio| && Flag(lists.flags, i) == 0 && OneGroup(lists, server, i)
    requires BestBefore(lists, server, i + 1, best)
    ensures lists.Best(server, best)
  {
    hide Compatible;
    forall j | 0 <= j < |lists.prio| && lists.Shared(server, j)
      ensures lists.NotAfter(best, j)
    {
      if j > i {
        GroupNoMonotone(lists.flags, i + 1, j);
      }
      if best < i {
        assert GroupNo(lists.flags, best) == GroupNo(lists.flags, i);
      }
      if j < i {
        assert GroupNo(lists.flags, j) == GroupNo(lists.flags, i);
      }
    }
  }
}
