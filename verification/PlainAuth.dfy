/** The PLAIN mechanism of the simple authenticator (section 2 of RFC 4616): the message is
    authzid NUL authcid NUL passwd. */
module PlainAuth {
  import opened Wrappers
  import opened Keys

  const NUL: Byte := 0
  const MAX_ASSERTION: nat := 1000

  /** A message whose text is not UTF-8 is answered with an error rather than a decision. */
  datatype Decision = Accept | Reject | Malformed

  /** The parts of a message between NULs; there is always at least one. */
  function Split(bs: Bytes): (parts: seq<Bytes>)
    ensures parts != []
  {
    if bs == [] then [[]]
    else
      var rest := Split(bs[1..]);
      if bs[0] == NUL then [[]] + rest else [[bs[0]] + rest[0]] + rest[1..]
  }

  function Join(parts: seq<Bytes>): Bytes
    requires parts != []
  {
    if |parts| == 1 then parts[0] else parts[0] + [NUL] + Join(parts[1..])
  }

  predicate NulFree(bs: Bytes)
  {
    NUL !in bs
  }

  /** The message that RFC 4616 prescribes. */
  function Message(authzid: Bytes, authcid: Bytes, passwd: Bytes): Bytes
  {
    authzid + [0] + authcid + [0] + passwd
  }

  lemma {:induction false} SplitFree(bs: Bytes)
    requires NulFree(bs)
    ensures Split(bs) == [bs]
  {
    if bs != [] {
      SplitFree(bs[1..]);
      assert bs == [bs[0]] + bs[1..];
    }
  }

  lemma {:induction false} SplitAtNul(head: Bytes, tail: Bytes)
    requires NulFree(head)
    ensures Split(head + [NUL] + tail) == [head] + Split(tail)
  {
    var bs := head + [NUL] + tail;
    if head == [] {
      assert bs[1..] == tail;
    } else {
      SplitAtNul(head[1..], tail);
      assert bs[1..] == head[1..] + [NUL] + tail;
      assert head == [head[0]] + head[1..];
    }
  }

  /** Splitting undoes joining. */
  lemma {:induction false} SplitJoin(parts: seq<Bytes>)
    requires parts != [] && forall p :: p in parts ==> NulFree(p)
    ensures Split(Join(parts)) == parts
  {
    if |parts| == 1 {
      SplitFree(parts[0]);
    } else {
      SplitJoin(parts[1..]);
      SplitAtNul(parts[0], Join(parts[1..]));
    }
  }

  /** And joining undoes splitting. */
  lemma {:induction false} JoinSplit(bs: Bytes)
    ensures Join(Split(bs)) == bs
    ensures forall p :: p in Split(bs) ==> NulFree(p)
  {
    if bs != [] {
      var rest := Split(bs[1..]);
      JoinSplit(bs[1..]);
      var first: seq<Bytes> := if bs[0] == NUL then [[]] else [[bs[0]] + rest[0]];
      if bs[0] == NUL {
        assert (first + rest)[1..] == rest;
      } else {
        assert (first + rest[1..])[1..] == rest[1..];
        assert Join(first + rest[1..]) == [bs[0]] + Join(rest);
        assert NulFree(rest[0]) && forall p :: p in rest[1..] ==> p in rest;
      }
    }
  }

  /** Splitting inverts printing a message, so a message determines its three fields. */
  lemma SplitMessage(authzid: Bytes, authcid: Bytes, passwd: Bytes)
    requires NulFree(authzid) && NulFree(authcid) && NulFree(passwd)
    ensures Split(Message(authzid, authcid, passwd)) == [authzid, authcid, passwd]
  {
    assert Message(authzid, authcid, passwd) == authzid + [NUL] + (authcid + [NUL] + passwd);
    SplitAtNul(authzid, authcid + [NUL] + passwd);
    SplitAtNul(authcid, passwd);
    SplitFree(passwd);
  }

  /** What makes an assertion good: short enough, of the prescribed shape, valid text, no foreign
      authorization identity, and the stored password. */
  ghost predicate Good(utf8: Bytes -> bool, db: map<Bytes, Bytes>, assertion: Bytes)
  {
    |assertion| <= MAX_ASSERTION &&
    exists authzid: Bytes, authcid: Bytes, passwd: Bytes ::
      && NulFree(authzid) && NulFree(authcid) && NulFree(passwd)
      && assertion == Message(authzid, authcid, passwd)
      && (authzid == [] || authzid == authcid)
      && utf8(authcid) && utf8(passwd)
      && authcid in db && db[authcid] == passwd
  }

  lemma GoodIsSplit(utf8: Bytes -> bool, db: map<Bytes, Bytes>, assertion: Bytes)
    ensures var parts := Split(assertion);
            Good(utf8, db, assertion) <==>
            && |assertion| <= MAX_ASSERTION && |parts| == 3
            && (parts[0] == [] || parts[0] == parts[1])
            && utf8(parts[1]) && utf8(parts[2])
            && parts[1] in db && db[parts[1]] == parts[2]
  {
    var parts := Split(assertion);
    JoinSplit(assertion);
    if Good(utf8, db, assertion) {
      var authzid: Bytes, authcid: Bytes, passwd: Bytes :|
        && NulFree(authzid) && NulFree(authcid) && NulFree(passwd)
        && assertion == Message(authzid, authcid, passwd)
        && (authzid == [] || authzid == authcid)
        && utf8(authcid) && utf8(passwd)
        && authcid in db && db[authcid] == passwd;
      SplitMessage(authzid, authcid, passwd);
    } else if |parts| == 3 {
      var rest := parts[1..];
      assert Join(rest[1..]) == parts[2];
      assert Join(rest) == parts[1] + [NUL] + parts[2];
      assert assertion == Message(parts[0], parts[1], parts[2]);
      assert NulFree(parts[0]) && NulFree(parts[1]) && NulFree(parts[2]);
    }
  }

  /** No message of more than 1000 bytes is good; one of 1000 bytes can be: no authzid, no authcid, and
      a password of 998 bytes. */
  lemma LongestMessage(passwd: Bytes)
    requires |passwd| == 998 && 0 !in passwd
    ensures |Message([], [], passwd)| == 1000
    ensures Good((b: Bytes) => true, map[[] := passwd], Message([], [], passwd))
    ensures forall utf8: Bytes -> bool, db: map<Bytes, Bytes>, m: Bytes :: |m| >= 1001 ==> !Good(utf8, db, m)
  {
    var none: Bytes := [];
    assert NulFree(none) && NulFree(passwd);
    assert Message(none, none, passwd) == Message([], [], passwd);
  }

  /** The decision, for every mechanism and every assertion. `utf8` says which bytes are text. */
  method AttemptAuthn(utf8: Bytes -> bool, db: map<Bytes, Bytes>, mechanism: string, assertion: Bytes)
    returns (decision: Decision)
    ensures mechanism == "ANONYMOUS" ==> decision == Accept
    ensures mechanism != "ANONYMOUS" && mechanism != "PLAIN" ==> decision == Reject
    ensures mechanism == "PLAIN" ==> (decision == Accept <==> Good(utf8, db, assertion))
    ensures mechanism == "PLAIN" ==>
              (decision == Malformed <==>
                 var parts := Split(assertion);
                 && |assertion| <= MAX_ASSERTION && |parts| == 3 && (parts[0] == [] || parts[0] == parts[1])
                 && !(utf8(parts[1]) && utf8(parts[2])))
  {
    GoodIsSplit(utf8, db, assertion);
    if mechanism == "ANONYMOUS" {
      return Accept;
    }
    if mechanism != "PLAIN" {
      return Reject;
    }
    if |assertion| > MAX_ASSERTION {
      return Reject;
    }
    var splitter := Split(assertion);
    var authzid := NextPart(splitter, 0);
    var authcid := NextPart(splitter, 1);
    var passwd := NextPart(splitter, 2);
    var whatever := NextPart(splitter, 3);
    if authzid.None? || authcid.None? || passwd.None? || whatever.Some? {
      return Reject;
    }
    if |authzid.value| > 0 && authzid.value != authcid.value {
      return Reject;
    }
    if !utf8(authcid.value) || !utf8(passwd.value) {
      return Malformed;
    }
    if authcid.value in db && db[authcid.value] == passwd.value {
      return Accept;
    }
    return Reject;
  }

  function NextPart(parts: seq<Bytes>, taken: nat): Option<Bytes>
  {
    if taken < |parts| then Some(parts[taken]) else None
  }
}
