/** Record ids of different acts never collide, because proposal ids hold no separator. */
module RecordIds {
  import opened Core
  import opened Types
  import opened Settlement
  import opened Records
  import opened ProtocolRun

  // ---- splitting an id at its first separator -----------------------------------------------------

  lemma FirstSeparator(base: string, separator: char, rest: string)
    requires SeparatorFree(base) && IsSeparator(separator)
    ensures var id := base + [separator] + rest;
            && id[..|base|] == base && id[|base|] == separator && id[|base| + 1..] == rest
            && forall i | 0 <= i < |base| :: !IsSeparator(id[i])
  {
    var id := base + [separator] + rest;
    assert forall i | 0 <= i < |base| :: id[i] == base[i];
  }

  lemma SplitsAgree(a: string, x: char, s: string, b: string, y: char, t: string)
    requires SeparatorFree(a) && SeparatorFree(b) && IsSeparator(x) && IsSeparator(y)
    requires a + [x] + s == b + [y] + t
    ensures a == b && x == y && s == t
  {
    FirstSeparator(a, x, s);
    FirstSeparator(b, y, t);
  }

  // ---- the parts of a record id -------------------------------------------------------------------

  function BaseOf(act: Act): string {
    match act
    case Declare(d) => "member-feed"
    case _ => act.proposal.id
  }

  function SeparatorOf(act: Act): char { if act.Declare? then ':' else '/' }

  function RestOf(author: string, act: Act): string {
    match act
    case Declare(d) => d.memberId + ":" + d.communityId + ":" + d.feedPublicKey
    case Propose(p) => "proposed"
    case Accept(p) => "accepted"
    case Acknowledge(p) => "settlement-ack/" + author
    case AttestTerms(p, a) => "settlement-attestation/" + a.memberId
    case Publish(p, t) => "settlement"
  }

  lemma Regroup(base: string, literal: string, separator: char, word: string, rest: string)
    requires literal == [separator] + word
    ensures base + literal + rest == base + [separator] + (word + rest)
    ensures base + literal == base + [separator] + word
  {
  }

  lemma Words()
    ensures "member-feed:" == "member-feed" + [':']
    ensures "/proposed" == ['/'] + "proposed" && "/accepted" == ['/'] + "accepted"
    ensures "/settlement-ack/" == ['/'] + "settlement-ack/"
    ensures "/settlement-attestation/" == ['/'] + "settlement-attestation/"
    ensures "/settlement" == ['/'] + "settlement"
  {
  }

  lemma DeclarationIdParts(d: Declaration)
    ensures DeclarationRecordId(d) == "member-feed" + [':'] + (d.memberId + ":" + d.communityId + ":" + d.feedPublicKey)
  {
    Words();
    var rest := d.memberId + ":" + d.communityId + ":" + d.feedPublicKey;
    assert DeclarationRecordId(d) == "member-feed:" + rest;
  }

  lemma IdParts(author: string, act: Act, time: string)
    requires act.Publish? ==> act.transfer.terms.id == SettlementTransferId(act.proposal.id)
    ensures EnvelopeFor(author, act, time).id == BaseOf(act) + [SeparatorOf(act)] + RestOf(author, act)
  {
    hide DeclarationRecordId;
    Words();
    match act {
      case Declare(d) => DeclarationIdParts(d);
      case Propose(p) => Regroup(p.id, "/proposed", '/', "proposed", "");
      case Accept(p) => Regroup(p.id, "/accepted", '/', "accepted", "");
      case Acknowledge(p) => Regroup(p.id, "/settlement-ack/", '/', "settlement-ack/", author);
      case AttestTerms(p, a) => Regroup(p.id, "/settlement-attestation/", '/', "settlement-attestation/", a.memberId);
      case Publish(p, t) => Regroup(p.id, "/settlement", '/', "settlement", "");
    }
  }

  lemma MemberFeedSeparatorFree()
    ensures SeparatorFree("member-feed")
  {
  }

  /** The two texts are for acts of one kind. */
  ghost predicate SameKind(a: Act, b: Act) {
    EnvelopeFor("", a, "").kind == EnvelopeFor("", b, "").kind
  }

  lemma AckIsNotAttestation()
    ensures forall m, n :: "settlement-ack/" + m != "settlement-attestation/" + n
    ensures forall m :: "settlement-ack/" + m != "settlement"
    ensures forall n :: "settlement-attestation/" + n != "settlement"
  {
    forall m: string, n: string
      ensures "settlement-ack/" + m != "settlement-attestation/" + n
    {
      assert ("settlement-ack/" + m)[12] == 'c';
      assert ("settlement-attestation/" + n)[12] == 't';
    }
  }

  lemma AckIsNotProposal()
    ensures forall m :: "settlement-ack/" + m != "proposed" && "settlement-ack/" + m != "accepted"
    ensures forall n :: "settlement-attestation/" + n != "proposed" && "settlement-attestation/" + n != "accepted"
  {
  }

  lemma WordsDiffer()
    ensures "proposed" != "accepted" && "proposed" != "settlement" && "accepted" != "settlement"
  {
    assert "proposed"[0] != "accepted"[0] && |"proposed"| != |"settlement"| && |"accepted"| != |"settlement"|;
  }

  /** Of two acts on proposals, equal rests mean equal kinds. */
  lemma RestsTellKinds(author: string, a: Act, other: string, b: Act)
    requires !a.Declare? && !b.Declare? && RestOf(author, a) == RestOf(other, b)
    ensures SameKind(a, b)
    ensures a.Acknowledge? ==> author == other
    ensures a.AttestTerms? ==> a.attestation.memberId == b.attestation.memberId
  {
    WordsDiffer();
    AckIsNotProposal();
    AckIsNotAttestation();
    if a.Acknowledge? && b.Acknowledge? {
      SuffixesAgree("settlement-ack/", author, other);
    } else if a.AttestTerms? && b.AttestTerms? {
      SuffixesAgree("settlement-attestation/", a.attestation.memberId, b.attestation.memberId);
    }
  }

  lemma SuffixesAgree(prefix: string, s: string, t: string)
    requires prefix + s == prefix + t
    ensures s == t
  {
    assert (prefix + s)[|prefix|..] == s && (prefix + t)[|prefix|..] == t;
  }

  /** In one community, a declaration id names its member. */
  lemma DeclarationIdNamesMember(d: Declaration, e: Declaration)
    requires d.communityId == e.communityId && |d.feedPublicKey| == |e.feedPublicKey|
    requires d.memberId + ":" + d.communityId + ":" + d.feedPublicKey == e.memberId + ":" + e.communityId + ":" + e.feedPublicKey
    ensures d.memberId == e.memberId && d.feedPublicKey == e.feedPublicKey
  {
    var x := d.memberId + ":" + d.communityId + ":" + d.feedPublicKey;
    var y := e.memberId + ":" + e.communityId + ":" + e.feedPublicKey;
    assert |x| == |d.memberId| + |d.communityId| + |d.feedPublicKey| + 2;
    assert x[..|d.memberId|] == d.memberId && y[..|e.memberId|] == e.memberId;
    assert x[|x| - |d.feedPublicKey|..] == d.feedPublicKey && y[|y| - |e.feedPublicKey|..] == e.feedPublicKey;
  }

  /** Two acts whose record ids are equal are of one kind, on one proposal, and, for acknowledgements and
      attestations, by one member. */
  lemma RecordIdTellsAct(author: string, a: Act, time: string, other: string, b: Act, later: string)
    requires a.Publish? ==> a.transfer.terms.id == SettlementTransferId(a.proposal.id)
    requires b.Publish? ==> b.transfer.terms.id == SettlementTransferId(b.proposal.id)
    requires !a.Declare? ==> SeparatorFree(a.proposal.id)
    requires !b.Declare? ==> SeparatorFree(b.proposal.id)
    requires EnvelopeFor(author, a, time).id == EnvelopeFor(other, b, later).id
    ensures SameKind(a, b)
    ensures !a.Declare? ==> a.proposal.id == b.proposal.id
    ensures a.Acknowledge? ==> author == other
    ensures a.AttestTerms? ==> a.attestation.memberId == b.attestation.memberId
    ensures a.Declare? && a.declaration.communityId == b.declaration.communityId
            && |a.declaration.feedPublicKey| == |b.declaration.feedPublicKey| ==>
              a.declaration.memberId == b.declaration.memberId
  {
    hide EnvelopeFor;
    IdParts(author, a, time);
    IdParts(other, b, later);
    MemberFeedSeparatorFree();
    SplitsAgree(BaseOf(a), SeparatorOf(a), RestOf(author, a), BaseOf(b), SeparatorOf(b), RestOf(other, b));
    if !a.Declare? {
      RestsTellKinds(author, a, other, b);
    } else {
      DeclaredKinds(a, b);
      if a.declaration.communityId == b.declaration.communityId && |a.declaration.feedPublicKey| == |b.declaration.feedPublicKey| {
        DeclarationIdNamesMember(a.declaration, b.declaration);
      }
    }
  }

  lemma DeclaredKinds(a: Act, b: Act)
    requires a.Declare? && b.Declare?
    ensures SameKind(a, b)
  {
  }
}
