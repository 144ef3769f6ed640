/**
 * The contact side of components/FamilyEvents.tsx: the simpler relationship
 * guess applied to device contacts when they are loaded, and the search box
 * that filters them.
 */
module ContactSearch {
  import opened Wrappers
  import opened Text
  import opened Seqs
  import opened PatternTable
  import Contacts
  import opened NameDetector

  /** `detectBasicRelationship`: an if-chain of substring checks on the lower-cased name. */
  function DetectBasicRelationship(name: string): (r: Label)
    ensures name == "" ==> r == Contact
    ensures r != Work && r != Friend
  {
    if name == "" then Contact
    else
      var n := Lower(name);
      if Contains(n, "mom") || Contains(n, "mother") then Mother
      else if Contains(n, "dad") || Contains(n, "father") then Father
      else if Contains(n, "sister") || Contains(n, "sis") then Sister
      else if Contains(n, "brother") || Contains(n, "bro") then Brother
      else if Contains(n, "uncle") then Uncle
      else if Contains(n, "aunt") then Aunt
      else if Contains(n, "grandma") || Contains(n, "grandmother") then Grandmother
      else if Contains(n, "grandpa") || Contains(n, "grandfather") then Grandfather
      else if Contains(n, "cousin") then Cousin
      else Contact
  }

  /** The checks of `detectBasicRelationship` as an ordered table, in the order they are made. */
  const BasicChecks: Table<Label> := [
    (Mother, ["mom", "mother"]), (Father, ["dad", "father"]), (Sister, ["sister", "sis"]),
    (Brother, ["brother", "bro"]), (Uncle, ["uncle"]), (Aunt, ["aunt"]),
    (Grandmother, ["grandma", "grandmother"]), (Grandfather, ["grandpa", "grandfather"]),
    (Cousin, ["cousin"])
  ]

  lemma AnyMatchOne(p: string, s: string)
    ensures AnyMatch([p], s) <==> Contains(s, p)
  {
    assert [p][0] == p;
  }

  lemma AnyMatchTwo(p: string, q: string, s: string)
    ensures AnyMatch([p, q], s) <==> Contains(s, p) || Contains(s, q)
  {
    assert [p, q][0] == p && [p, q][1] == q;
  }

  /**
   * The if-chain is the first-match rule over `BasicChecks`: for a non-empty
   * name the first check in order whose word occurs in the name decides.
   */
  lemma {:induction false} BasicIsFirstMatch(name: string)
    requires name != ""
    ensures DetectBasicRelationship(name) == FirstMatch(BasicChecks, Contact, Lower(name))
  {
    var n := Lower(name);
    AnyMatchTwo("mom", "mother", n);
    AnyMatchTwo("dad", "father", n);
    AnyMatchTwo("sister", "sis", n);
    AnyMatchTwo("brother", "bro", n);
    AnyMatchOne("uncle", n);
    AnyMatchOne("aunt", n);
    AnyMatchTwo("grandma", "grandmother", n);
    AnyMatchTwo("grandpa", "grandfather", n);
    AnyMatchOne("cousin", n);
    assert BasicChecks[0].1 == ["mom", "mother"] && BasicChecks[1].1 == ["dad", "father"];
    assert BasicChecks[2].1 == ["sister", "sis"] && BasicChecks[3].1 == ["brother", "bro"];
    assert BasicChecks[4].1 == ["uncle"] && BasicChecks[5].1 == ["aunt"];
    assert BasicChecks[6].1 == ["grandma", "grandmother"] && BasicChecks[7].1 == ["grandpa", "grandfather"];
    assert BasicChecks[8].1 == ["cousin"];
    if Contains(n, "mom") || Contains(n, "mother") {
      FirstMatchAt(BasicChecks, Contact, n, 0);
    } else if Contains(n, "dad") || Contains(n, "father") {
      FirstMatchAt(BasicChecks, Contact, n, 1);
    } else if Contains(n, "sister") || Contains(n, "sis") {
      FirstMatchAt(BasicChecks, Contact, n, 2);
    } else if Contains(n, "brother") || Contains(n, "bro") {
      FirstMatchAt(BasicChecks, Contact, n, 3);
    } else if Contains(n, "uncle") {
      FirstMatchAt(BasicChecks, Contact, n, 4);
    } else if Contains(n, "aunt") {
      FirstMatchAt(BasicChecks, Contact, n, 5);
    } else if Contains(n, "grandma") || Contains(n, "grandmother") {
      FirstMatchAt(BasicChecks, Contact, n, 6);
    } else if Contains(n, "grandpa") || Contains(n, "grandfather") {
      FirstMatchAt(BasicChecks, Contact, n, 7);
    } else if Contains(n, "cousin") {
      FirstMatchAt(BasicChecks, Contact, n, 8);
    } else {
      FirstMatchNone(BasicChecks, Contact, n);
    }
  }

  /** One element of the enrichment map in `loadAllContacts`. */
  function Enriched(c: Contacts.Contact): Contacts.Contact {
    c.(relationship := Some(DetectBasicRelationship(Contacts.NameOrEmpty(c)).Name()), group := Some("Contacts"))
  }

  /**
   * The enrichment of loaded contacts: every contact kept, in order, with its
   * own fields; the relationship guessed from the name and the group always
   * 'Contacts'.
   */
  function EnrichContacts(data: seq<Contacts.Contact>): (r: seq<Contacts.Contact>)
    ensures |r| == |data|
    ensures forall i :: 0 <= i < |r| ==>
              r[i].id == data[i].id && r[i].name == data[i].name
              && r[i].phoneNumbers == data[i].phoneNumbers
    ensures forall i :: 0 <= i < |r| ==>
              r[i].relationship == Some(DetectBasicRelationship(Contacts.NameOrEmpty(data[i])).Name())
              && r[i].group == Some("Contacts")
  {
    seq(|data|, i requires 0 <= i < |data| => Enriched(data[i]))
  }

  /** A loaded contact's relationship is never Work or Friend. */
  lemma EnrichedNeverWorkOrFriend(data: seq<Contacts.Contact>, i: nat)
    requires i < |data|
    ensures EnrichContacts(data)[i].relationship != Some("Work")
    ensures EnrichContacts(data)[i].relationship != Some("Friend")
  {
    var l := DetectBasicRelationship(Contacts.NameOrEmpty(data[i]));
    LabelRoundTrip(l);
  }

  /**
   * A contact is found by `query` when its lower-cased name or relationship
   * holds it. The empty query finds every contact; a query with an upper-case
   * letter finds none, which is why the query is lower-cased too.
   */
  predicate MatchesQuery(query: string, c: Contacts.Contact)
    ensures query == [] ==> MatchesQuery(query, c)
    ensures !IsLower(query) ==> !MatchesQuery(query, c)
  {
    UpperNeverOccurs(Lower(Contacts.NameOrEmpty(c)), query);
    UpperNeverOccurs(Lower(Contacts.RelationshipOrEmpty(c)), query);
    Contains(Lower(Contacts.NameOrEmpty(c)), query) || Contains(Lower(Contacts.RelationshipOrEmpty(c)), query)
  }

  /** A pattern with an upper-case letter does not occur in a lower-cased string. */
  lemma UpperNeverOccurs(s: string, p: string)
    requires IsLower(s)
    ensures !IsLower(p) ==> !Contains(s, p)
  {
  }

  function QueryMatcher(query: string): Contacts.Contact -> bool {
    (c: Contacts.Contact) => MatchesQuery(query, c)
  }

  /** At most this many contacts are offered. */
  const SearchLimit: nat := 10

  /**
   * The search effect: a blank query offers nothing; otherwise the first ten
   * contacts, in order, whose name or relationship holds the lower-cased
   * (untrimmed) query.
   */
  function SearchContacts(searchQuery: string, allContacts: seq<Contacts.Contact>): (r: seq<Contacts.Contact>)
    ensures AllWhitespace(searchQuery) ==> r == []
    ensures |r| <= SearchLimit
    ensures !AllWhitespace(searchQuery) ==>
              var matches := Filter(QueryMatcher(Lower(searchQuery)), allContacts);
              |r| == (if |matches| <= SearchLimit then |matches| else SearchLimit)
              && r == matches[..|r|]
  {
    if Trim(searchQuery) == [] then []
    else Take(Filter(QueryMatcher(Lower(searchQuery)), allContacts), SearchLimit)
  }

  /**
   * What is offered is an order-preserving selection from all contacts, each
   * of which matches the lower-cased query.
   */
  lemma SearchResultsMatch(searchQuery: string, allContacts: seq<Contacts.Contact>)
    ensures var r := SearchContacts(searchQuery, allContacts);
            IsSubsequence(r, allContacts)
            && forall i :: 0 <= i < |r| ==> MatchesQuery(Lower(searchQuery), r[i])
  {
    var r := SearchContacts(searchQuery, allContacts);
    if !AllWhitespace(searchQuery) {
      var matches := Filter(QueryMatcher(Lower(searchQuery)), allContacts);
      PrefixIsSubsequence(matches, allContacts, |r|);
      forall i | 0 <= i < |r| ensures MatchesQuery(Lower(searchQuery), r[i]) {
        assert r[i] == matches[i];
        assert QueryMatcher(Lower(searchQuery))(matches[i]);
      }
    }
  }

  /** With at most ten matches, every matching contact is offered. */
  lemma SearchFindsAllFewMatches(searchQuery: string, allContacts: seq<Contacts.Contact>, i: nat)
    requires !AllWhitespace(searchQuery) && i < |allContacts|
    requires MatchesQuery(Lower(searchQuery), allContacts[i])
    requires Count(QueryMatcher(Lower(searchQuery)), allContacts) <= SearchLimit
    ensures allContacts[i] in SearchContacts(searchQuery, allContacts)
  {
    assert QueryMatcher(Lower(searchQuery))(allContacts[i]);
  }
}
