/**
 * The relationship classifier of utils/nameDetector.js: a contact's display
 * name is lower-cased and scanned against an ordered table of relationship
 * labels; the first label with a pattern occurring in the name wins, and the
 * label determines the contact's group.
 */
module NameDetector {
  import opened Wrappers
  import opened Text
  import opened PatternTable
  import Contacts

  /** The relationship labels the classifier can answer, `Contact` being the default. */
  datatype Label =
    | Mother | Father | Uncle | Aunt | Sister | Brother
    | Grandmother | Grandfather | Cousin | Work | Friend | Contact
  {
    /** The string the source returns for this label. */
    function Name(): string {
      match this
      case Mother => "Mother"
      case Father => "Father"
      case Uncle => "Uncle"
      case Aunt => "Aunt"
      case Sister => "Sister"
      case Brother => "Brother"
      case Grandmother => "Grandmother"
      case Grandfather => "Grandfather"
      case Cousin => "Cousin"
      case Work => "Work"
      case Friend => "Friend"
      case Contact => "Contact"
    }

    /** The nine labels `determineGroup` files under Family. */
    predicate IsFamily() {
      this in {Mother, Father, Uncle, Aunt, Sister, Brother, Grandmother, Grandfather, Cousin}
    }
  }

  /** Reads a label back from the string stored in a contact's `relationship` field. */
  function LabelOf(s: string): Option<Label> {
    if s == "Mother" then Some(Mother)
    else if s == "Father" then Some(Father)
    else if s == "Uncle" then Some(Uncle)
    else if s == "Aunt" then Some(Aunt)
    else if s == "Sister" then Some(Sister)
    else if s == "Brother" then Some(Brother)
    else if s == "Grandmother" then Some(Grandmother)
    else if s == "Grandfather" then Some(Grandfather)
    else if s == "Cousin" then Some(Cousin)
    else if s == "Work" then Some(Work)
    else if s == "Friend" then Some(Friend)
    else if s == "Contact" then Some(Contact)
    else None
  }

  /** Reading back the stored name of a label gives the label. */
  lemma LabelRoundTrip(l: Label)
    ensures LabelOf(l.Name()) == Some(l)
  {
    match l
    case Mother =>
    case Father =>
    case Uncle =>
    case Aunt =>
    case Sister =>
    case Brother =>
    case Grandmother =>
    case Grandfather =>
    case Cousin =>
    case Work =>
    case Friend =>
    case Contact =>
  }

  datatype Group = FamilyGroup | WorkGroup | FriendsGroup | ContactsGroup
  {
    function Name(): string {
      match this
      case FamilyGroup => "Family"
      case WorkGroup => "Work"
      case FriendsGroup => "Friends"
      case ContactsGroup => "Contacts"
    }
  }

  /**
   * The lexicon, in the insertion order of the object literal, which is the
   * order `Object.entries` visits it.
   */
  const RelationshipPatterns: Table<Label> := [
    (Mother, MotherPatterns), (Father, FatherPatterns), (Uncle, UnclePatterns),
    (Aunt, AuntPatterns), (Sister, SisterPatterns), (Brother, BrotherPatterns),
    (Grandmother, GrandmotherPatterns), (Grandfather, GrandfatherPatterns),
    (Cousin, CousinPatterns), (Work, WorkPatterns), (Friend, FriendPatterns)
  ]

  const MotherPatterns: seq<string> := ["mom", "mommy", "mama", "ma", "mother", "mum", "mummy"]
  const FatherPatterns: seq<string> := ["dad", "daddy", "dada", "papa", "pa", "father", "pop", "pops"]
  const UnclePatterns: seq<string> := ["uncle", "unc", "tio"]
  const AuntPatterns: seq<string> := ["aunt", "aunty", "auntie", "tia"]
  const SisterPatterns: seq<string> := ["sis", "sister"]
  const BrotherPatterns: seq<string> := ["bro", "brother"]
  const GrandmotherPatterns: seq<string> := ["grandma", "granny", "nana", "gram", "grandmother"]
  const GrandfatherPatterns: seq<string> := ["grandpa", "gramps", "grandfather"]
  const CousinPatterns: seq<string> := ["cousin", "cuz"]
  const WorkPatterns: seq<string> :=
    ["customer", "support", "office", "manager", "company", "business", "hr", "boss"]
  const FriendPatterns: seq<string> :=
    ["buddy", "pal", "bestie", "bestfriend", "best-friend", "best friend"]

  /** The relationship `detectRelationship` gives a name. */
  function Classify(contactName: string): Label {
    FirstMatch(RelationshipPatterns, Contact, Lower(contactName))
  }

  /** `detectRelationship`: the nested scan with early return. */
  method DetectRelationship(contactName: string) returns (r: Label)
    ensures r == Classify(contactName)
  {
    var name := Lower(contactName);
    var i := 0;
    while i < |RelationshipPatterns|
      invariant 0 <= i <= |RelationshipPatterns|
      invariant forall k :: 0 <= k < i ==> !AnyMatch(RelationshipPatterns[k].1, name)
    {
      var (relationship, patterns) := RelationshipPatterns[i];
      var j := 0;
      while j < |patterns|
        invariant 0 <= j <= |patterns|
        invariant forall m :: 0 <= m < j ==> !Contains(name, patterns[m])
      {
        if Contains(name, patterns[j]) {
          FirstMatchAt(RelationshipPatterns, Contact, name, i);
          return relationship;
        }
        j := j + 1;
      }
      i := i + 1;
    }
    FirstMatchNone(RelationshipPatterns, Contact, name);
    return Contact;
  }

  /** `determineGroup`'s lookup from relationship to group. */
  function GroupOf(l: Label): (g: Group)
    ensures g == FamilyGroup <==> l.IsFamily()
    ensures g == WorkGroup <==> l == Work
    ensures g == FriendsGroup <==> l == Friend
  {
    if l.IsFamily() then FamilyGroup
    else if l == Work then WorkGroup
    else if l == Friend then FriendsGroup
    else ContactsGroup
  }

  /** `determineGroup`: classifies the name again and looks its group up. */
  function DetermineGroup(contactName: string): (g: Group)
    ensures g == FamilyGroup <==> Classify(contactName).IsFamily()
    ensures g == WorkGroup <==> Classify(contactName) == Work
    ensures g == FriendsGroup <==> Classify(contactName) == Friend
    ensures g == ContactsGroup <==> Classify(contactName) == Contact
  {
    GroupOf(Classify(contactName))
  }

  /** One element of `autoGroupContacts`' map: the spread with two fields replaced. */
  function Classified(c: Contacts.Contact): Contacts.Contact {
    var name := Contacts.NameOrEmpty(c);
    c.(relationship := Some(Classify(name).Name()), group := Some(DetermineGroup(name).Name()))
  }

  /** `autoGroupContacts`. */
  function AutoGroupContacts(contacts: seq<Contacts.Contact>): (r: seq<Contacts.Contact>)
    ensures |r| == |contacts|
    ensures forall i :: 0 <= i < |r| ==>
              r[i].id == contacts[i].id && r[i].name == contacts[i].name
              && r[i].phoneNumbers == contacts[i].phoneNumbers
    ensures forall i :: 0 <= i < |r| ==>
              r[i].relationship == Some(Classify(Contacts.NameOrEmpty(contacts[i])).Name())
              && r[i].group == Some(DetermineGroup(Contacts.NameOrEmpty(contacts[i])).Name())
  {
    seq(|contacts|, i requires 0 <= i < |contacts| => Classified(contacts[i]))
  }

  // Properties of the classifier.

  /** No row of the lexicon carries the default label, and no pattern is empty. */
  lemma LexiconShape()
    ensures forall k :: 0 <= k < |RelationshipPatterns| ==> RelationshipPatterns[k].0 != Contact
    ensures forall k, j :: 0 <= k < |RelationshipPatterns| && 0 <= j < |RelationshipPatterns[k].1| ==>
              RelationshipPatterns[k].1[j] != ""
  {
  }

  /** The first nine rows carry the family labels, and no two rows carry the same label. */
  lemma LexiconLabels()
    ensures |RelationshipPatterns| == 11
    ensures forall k :: 0 <= k < 9 ==> RelationshipPatterns[k].0.IsFamily()
    ensures forall k :: 9 <= k < 11 ==> !RelationshipPatterns[k].0.IsFamily()
    ensures forall k, m :: 0 <= k < m < 11 ==> RelationshipPatterns[k].0 != RelationshipPatterns[m].0
  {
  }

  /** The answer is `Contact` exactly when no pattern of any label occurs in the lower-cased name. */
  lemma ContactIffNoPattern(contactName: string)
    ensures Classify(contactName) == Contact <==>
              forall k, j :: 0 <= k < |RelationshipPatterns| && 0 <= j < |RelationshipPatterns[k].1| ==>
                !Contains(Lower(contactName), RelationshipPatterns[k].1[j])
  {
    var name := Lower(contactName);
    LexiconShape();
    if forall k :: 0 <= k < |RelationshipPatterns| ==> !AnyMatch(RelationshipPatterns[k].1, name) {
      FirstMatchNone(RelationshipPatterns, Contact, name);
    } else {
      var k :| 0 <= k < |RelationshipPatterns| && AnyMatch(RelationshipPatterns[k].1, name);
      MatchIndexAtMost(RelationshipPatterns, name, k);
    }
  }

  /** The empty name is a `Contact`: no pattern is empty. */
  lemma EmptyNameIsContact()
    ensures Classify("") == Contact
  {
    assert Lower("") == "";
    LexiconShape();
    forall k, j | 0 <= k < |RelationshipPatterns| && 0 <= j < |RelationshipPatterns[k].1|
      ensures !Contains("", RelationshipPatterns[k].1[j])
    {
    }
    ContactIffNoPattern("");
  }

  /**
   * First match wins: a label other than `Contact` is returned only from a row
   * one of whose patterns occurs in the name while no pattern of an earlier
   * row does; and such a row's label is always what is returned.
   */
  lemma FirstLabelWins(contactName: string, i: nat)
    requires i < |RelationshipPatterns|
    ensures Classify(contactName) == RelationshipPatterns[i].0 <==>
              AnyMatch(RelationshipPatterns[i].1, Lower(contactName))
              && forall k :: 0 <= k < i ==> !AnyMatch(RelationshipPatterns[k].1, Lower(contactName))
  {
    var name := Lower(contactName);
    var w := MatchIndex(RelationshipPatterns, name);
    LexiconShape();
    LexiconLabels();
    if Classify(contactName) == RelationshipPatterns[i].0 {
      // the labels of the rows are pairwise distinct, so the winning row is row i
      assert w < |RelationshipPatterns|;
      assert RelationshipPatterns[w].0 == RelationshipPatterns[i].0;
      assert w == i;
    }
  }

  /**
   * `Grandfather` is never returned: 'grandpa' holds 'pa' and 'grandfather'
   * holds 'father' (both Father patterns), and 'gramps' holds 'gram' (a
   * Grandmother pattern), all of which are tried first.
   */
  lemma NeverGrandfather(contactName: string)
    ensures Classify(contactName) != Grandfather
  {
    assert RelationshipPatterns[7] == (Grandfather, GrandfatherPatterns);
    assert RelationshipPatterns[1].1 == FatherPatterns && RelationshipPatterns[6].1 == GrandmotherPatterns;
    GrandfatherShadowed(Lower(contactName));
    FirstLabelWins(contactName, 7);
  }

  /** Every Grandfather pattern holds a pattern of an earlier row. */
  lemma GrandfatherShadowed(name: string)
    ensures AnyMatch(GrandfatherPatterns, name) ==>
              AnyMatch(FatherPatterns, name) || AnyMatch(GrandmotherPatterns, name)
  {
    if AnyMatch(GrandfatherPatterns, name) {
      var j :| 0 <= j < 3 && Contains(name, GrandfatherPatterns[j]);
      if j == 0 {
        assert MatchesAt("grandpa", "pa", 5);
        ContainsTransitive(name, "grandpa", "pa");
        assert Contains(name, FatherPatterns[4]);
      } else if j == 1 {
        assert MatchesAt("gramps", "gram", 0);
        ContainsTransitive(name, "gramps", "gram");
        assert Contains(name, GrandmotherPatterns[3]);
      } else {
        assert MatchesAt("grandfather", "father", 5);
        ContainsTransitive(name, "grandfather", "father");
        assert Contains(name, FatherPatterns[5]);
      }
    }
  }

  /** Classification ignores case: a name and its lower-cased form get the same label. */
  lemma CaseInsensitive(contactName: string)
    ensures Classify(contactName) == Classify(Lower(contactName))
    ensures DetermineGroup(contactName) == DetermineGroup(Lower(contactName))
  {
    LowerIdempotent(contactName);
  }

  /**
   * Family rows come before Work and Friend, so a name holding any pattern of
   * a family label is classified as family and filed under Family.
   */
  lemma FamilyPatternMeansFamily(contactName: string, k: nat, j: nat)
    requires k < |RelationshipPatterns| && RelationshipPatterns[k].0.IsFamily()
    requires j < |RelationshipPatterns[k].1| && Contains(Lower(contactName), RelationshipPatterns[k].1[j])
    ensures Classify(contactName).IsFamily()
    ensures DetermineGroup(contactName) == FamilyGroup
  {
    var name := Lower(contactName);
    assert AnyMatch(RelationshipPatterns[k].1, name);
    MatchIndexAtMost(RelationshipPatterns, name, k);
    LexiconLabels();
    assert k < 9;
  }

  /** "Mom" is a Mother, filed under Family. */
  lemma MomIsFamily()
    ensures Classify("Mom") == Mother && DetermineGroup("Mom") == FamilyGroup
  {
    assert Lower("Mom") == "mom";
    assert MatchesAt("mom", "mom", 0);
    assert Contains("mom", MotherPatterns[0]);
    FirstMatchAt(RelationshipPatterns, Contact, "mom", 0);
  }

  /**
   * Patterns are matched as raw substrings, so 'ma' inside "manager" makes
   * "Bro Manager" a Mother, ahead of both the Brother pattern 'bro' and the
   * Work pattern 'manager'.
   */
  lemma BroManagerIsMother()
    ensures Classify("Bro Manager") == Mother
  {
    assert Lower("Bro Manager") == "bro manager";
    assert MatchesAt("bro manager", "ma", 4);
    assert Contains("bro manager", MotherPatterns[3]);
    FirstMatchAt(RelationshipPatterns, Contact, "bro manager", 0);
  }

  /**
   * "Bob Smith Enterprises Spam" is a Father: the Father pattern 'pa' occurs
   * in "spam", and no Mother pattern occurs in the name, so the name never
   * reaches the default `Contact`.
   */
  lemma SpamIsFather()
    ensures Classify("Bob Smith Enterprises Spam") == Father
  {
    var n := "bob smith enterprises spam";
    SpamLowered();
    NoMotherPatternInSpam(n);
    assert MatchesAt(n, "pa", 23);
    assert Contains(n, FatherPatterns[4]);
    FirstMatchAt(RelationshipPatterns, Contact, n, 1);
  }

  lemma SpamLowered()
    ensures Lower("Bob Smith Enterprises Spam") == "bob smith enterprises spam"
  {
  }

  /** Every Mother pattern starts with 'm' followed by a letter other than 'i'. */
  lemma NoMotherPatternInSpam(n: string)
    requires n == "bob smith enterprises spam"
    ensures !AnyMatch(MotherPatterns, n)
  {
    forall j | 0 <= j < |MotherPatterns| ensures !Contains(n, MotherPatterns[j]) {
      MNotBeforeA(n, MotherPatterns[j]);
    }
  }

  /** In "bob smith enterprises spam" an 'm' is followed by 'i' or ends the name. */
  lemma MNotBeforeA(n: string, p: string)
    requires n == "bob smith enterprises spam"
    requires |p| >= 2 && p[0] == 'm' && p[1] != 'i'
    ensures !Contains(n, p)
  {
    forall i | 0 <= i <= |n| - |p| ensures !MatchesAt(n, p, i) {
      if n[i] == 'm' {
        assert i == 5 || i == 25;
      }
      assert n[i..i + |p|][0] == n[i] && n[i..i + |p|][1] == n[i + 1];
    }
  }

  /** Classifying already-classified contacts changes nothing: `name` is left as it was. */
  lemma AutoGroupIdempotent(contacts: seq<Contacts.Contact>)
    ensures AutoGroupContacts(AutoGroupContacts(contacts)) == AutoGroupContacts(contacts)
  {
    var once := AutoGroupContacts(contacts);
    var twice := AutoGroupContacts(once);
    forall i | 0 <= i < |contacts| ensures twice[i] == once[i] {
      assert Contacts.NameOrEmpty(once[i]) == Contacts.NameOrEmpty(contacts[i]);
    }
  }

  /**
   * After classification the stored group is a function of the stored
   * relationship: it is the group of the label that relationship names.
   */
  lemma GroupFollowsRelationship(contacts: seq<Contacts.Contact>, i: nat)
    requires i < |contacts|
    ensures var c := AutoGroupContacts(contacts)[i];
            c.relationship.Some? && LabelOf(c.relationship.value).Some?
            && c.group == Some(GroupOf(LabelOf(c.relationship.value).value).Name())
  {
    LabelRoundTrip(Classify(Contacts.NameOrEmpty(contacts[i])));
  }
}
