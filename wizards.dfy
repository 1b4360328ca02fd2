/**
 * The navigator's registry of common wizards: a table from a wizard type
 * ("new", "import", "export", ...) to the set of wizard descriptors
 * contributed for that type, filled from the extension registry and
 * queried for the wizards that enable for an element or a selection.
 */
module Wizards {
  import opened Wrappers
  import opened ConfigurationElements

  const WIZARD_TYPE_NEW: string := "new"

  /**
   * A contributed wizard.  `handle` stands for the descriptor object's
   * identity, which is what a `HashSet` of descriptors compares;
   * `wizardId` is `None` when the contribution names no wizard.
   */
  datatype WizardDescriptor = WizardDescriptor(handle: nat, wizardType: string, wizardId: Option<string>)

  /** The outcome of building a descriptor from a configuration element. */
  datatype Construction = Constructed(descriptor: WizardDescriptor) | WorkbenchFailure

  type Table = map<string, set<WizardDescriptor>>

  /** The descriptors registered under `wizardType`; none when the type has no entry. */
  function Registered(table: Table, wizardType: string): (r: set<WizardDescriptor>)
    ensures wizardType !in table ==> r == {}
    ensures forall d :: d in r <==> wizardType in table && d in table[wizardType]
  {
    if wizardType in table then table[wizardType] else {}
  }

  /** Every entry is non-empty and holds only descriptors of its own type. */
  ghost predicate WellFormed(table: Table)
  {
    forall t | t in table :: table[t] != {} && forall d | d in table[t] :: d.wizardType == t
  }

  /** The table after registering `d`: created lazily under its type, never duplicated. */
  function Insert(table: Table, d: WizardDescriptor): (r: Table)
    ensures forall t :: t in r <==> t in table || t == d.wizardType
    ensures forall t, e :: e in Registered(r, t) <==> e in Registered(table, t) || (t == d.wizardType && e == d)
  {
    table[d.wizardType := Registered(table, d.wizardType) + {d}]
  }

  /** The descriptors the element query reports: a wizard id is given and the descriptor enables. */
  ghost function ElementMatches<E>(s: set<WizardDescriptor>, anElement: E, isEnabledFor: (WizardDescriptor, E) -> bool): (r: set<WizardDescriptor>)
    ensures r <= s
    ensures forall d :: d in r <==> d in s && d.wizardId.Some? && isEnabledFor(d, anElement)
  {
    set d | d in s && d.wizardId.Some? && isEnabledFor(d, anElement)
  }

  /** The descriptors the selection query reports: the descriptor enables, its id is not checked. */
  ghost function SelectionMatches<S>(s: set<WizardDescriptor>, aSelection: S, isEnabledFor: (WizardDescriptor, S) -> bool): (r: set<WizardDescriptor>)
    ensures r <= s
    ensures forall d :: d in r <==> d in s && isEnabledFor(d, aSelection)
    ensures ElementMatches(s, aSelection, isEnabledFor) <= r
    ensures forall d | d in r && d !in ElementMatches(s, aSelection, isEnabledFor) :: d.wizardId.None?
  {
    set d | d in s && isEnabledFor(d, aSelection)
  }

  ghost function Pick(s: set<WizardDescriptor>): (d: WizardDescriptor)
    requires s != {}
    ensures d in s
  {
    var d :| d in s; d
  }

  /** The wizard ids of the descriptors in `s`, one per descriptor, in no particular order. */
  ghost function WizardIds(s: set<WizardDescriptor>): multiset<Option<string>>
  {
    if s == {} then multiset{} else
      var d := Pick(s);
      WizardIds(s - {d}) + multiset{d.wizardId}
  }

  /** Whichever descriptor is taken out first, the ids come to the same multiset. */
  lemma {:induction false} WizardIdsRemove(s: set<WizardDescriptor>, d: WizardDescriptor)
    requires d in s
    ensures WizardIds(s) == WizardIds(s - {d}) + multiset{d.wizardId}
    decreases s
  {
    var p := Pick(s);
    if p != d {
      WizardIdsRemove(s - {p}, d);
      WizardIdsRemove(s - {d}, p);
      assert s - {p} - {d} == s - {d} - {p};
    }
  }

  /** Each id occurs as often as there are descriptors carrying it. */
  lemma {:induction false} WizardIdsCount(s: set<WizardDescriptor>, v: Option<string>)
    ensures WizardIds(s)[v] == |set d | d in s && d.wizardId == v|
    decreases s
  {
    if s != {} {
      var p := Pick(s);
      WizardIdsRemove(s, p);
      WizardIdsCount(s - {p}, v);
      var carrying := set d | d in s && d.wizardId == v;
      var rest := set d | d in s - {p} && d.wizardId == v;
      if p.wizardId == v {
        assert carrying == rest + {p};
      } else {
        assert carrying == rest;
      }
    }
  }

  /** There is exactly one id per descriptor. */
  lemma {:induction false} WizardIdsSize(s: set<WizardDescriptor>)
    ensures |WizardIds(s)| == |s|
    decreases s
  {
    if s != {} {
      var p := Pick(s);
      WizardIdsRemove(s, p);
      WizardIdsSize(s - {p});
    }
  }

  /** An id is reported exactly when some descriptor carries it. */
  lemma WizardIdsMembership(s: set<WizardDescriptor>, v: Option<string>)
    ensures v in WizardIds(s) <==> exists d :: d in s && d.wizardId == v
  {
    WizardIdsCount(s, v);
    var carrying := set d | d in s && d.wizardId == v;
    if exists d :: d in s && d.wizardId == v {
      var d :| d in s && d.wizardId == v;
      assert d in carrying;
    }
  }

  /** One step of the element query's loop: taking `d` out of `s` takes out its id exactly when it matches. */
  lemma ElementMatchesStep<E>(s: set<WizardDescriptor>, d: WizardDescriptor, anElement: E, isEnabledFor: (WizardDescriptor, E) -> bool)
    requires d in s
    ensures WizardIds(ElementMatches(s, anElement, isEnabledFor)) ==
      WizardIds(ElementMatches(s - {d}, anElement, isEnabledFor))
      + (if d.wizardId.Some? && isEnabledFor(d, anElement) then multiset{d.wizardId} else multiset{})
  {
    var before := ElementMatches(s, anElement, isEnabledFor);
    if d.wizardId.Some? && isEnabledFor(d, anElement) {
      WizardIdsRemove(before, d);
      assert ElementMatches(s - {d}, anElement, isEnabledFor) == before - {d};
    } else {
      assert ElementMatches(s - {d}, anElement, isEnabledFor) == before;
    }
  }

  /** One step of the selection query's loop: taking `d` out of `s` takes out its id exactly when it enables. */
  lemma SelectionMatchesStep<S>(s: set<WizardDescriptor>, d: WizardDescriptor, aSelection: S, isEnabledFor: (WizardDescriptor, S) -> bool)
    requires d in s
    ensures WizardIds(SelectionMatches(s, aSelection, isEnabledFor)) ==
      WizardIds(SelectionMatches(s - {d}, aSelection, isEnabledFor))
      + (if isEnabledFor(d, aSelection) then multiset{d.wizardId} else multiset{})
  {
    var before := SelectionMatches(s, aSelection, isEnabledFor);
    if isEnabledFor(d, aSelection) {
      WizardIdsRemove(before, d);
      assert SelectionMatches(s - {d}, aSelection, isEnabledFor) == before - {d};
    } else {
      assert SelectionMatches(s - {d}, aSelection, isEnabledFor) == before;
    }
  }

  /** The element query reports no null id and no more ids than there are registered descriptors. */
  lemma ElementIdsBounds<E>(s: set<WizardDescriptor>, anElement: E, isEnabledFor: (WizardDescriptor, E) -> bool)
    ensures None !in WizardIds(ElementMatches(s, anElement, isEnabledFor))
    ensures |WizardIds(ElementMatches(s, anElement, isEnabledFor))| <= |s|
  {
    var m := ElementMatches(s, anElement, isEnabledFor);
    WizardIdsMembership(m, None);
    WizardIdsSize(m);
    assert s == m + (s - m);
  }

  /**
   * The two queries differ only in the element query's null check: for the
   * same enablement they report every non-null id equally often.
   */
  lemma OverloadsAgreeOnNonNullIds<E>(s: set<WizardDescriptor>, x: E, isEnabledFor: (WizardDescriptor, E) -> bool, id: string)
    ensures WizardIds(ElementMatches(s, x, isEnabledFor))[Some(id)] == WizardIds(SelectionMatches(s, x, isEnabledFor))[Some(id)]
  {
    var em := ElementMatches(s, x, isEnabledFor);
    var sm := SelectionMatches(s, x, isEnabledFor);
    WizardIdsCount(em, Some(id));
    WizardIdsCount(sm, Some(id));
    assert (set d | d in em && d.wizardId == Some(id)) == (set d | d in sm && d.wizardId == Some(id));
  }

  /**
   * In a well-formed table a type has an entry exactly when some descriptor
   * is registered for it, so the null check of the queries and an empty set
   * give the same answer, and every descriptor found sits under its own type.
   */
  lemma WellFormedLookup(table: Table, wizardType: string)
    requires WellFormed(table)
    ensures wizardType in table <==> Registered(table, wizardType) != {}
    ensures forall d | d in Registered(table, wizardType) :: d.wizardType == wizardType
  {
  }

  /** Registering the same descriptor a second time changes nothing. */
  lemma InsertIdempotent(table: Table, d: WizardDescriptor)
    ensures Insert(Insert(table, d), d) == Insert(table, d)
  {
  }

  /** A descriptor already registered is not added again. */
  lemma InsertPresent(table: Table, d: WizardDescriptor)
    requires d in Registered(table, d.wizardType)
    ensures Insert(table, d) == table
  {
    assert Registered(table, d.wizardType) + {d} == table[d.wizardType];
  }

  /** The order in which contributions are read does not matter. */
  lemma InsertCommutes(table: Table, a: WizardDescriptor, b: WizardDescriptor)
    ensures Insert(Insert(table, a), b) == Insert(Insert(table, b), a)
  {
    if a.wizardType == b.wizardType {
      var before := Registered(table, a.wizardType);
      assert before + {a} + {b} == before + {b} + {a};
    } else {
      assert Registered(Insert(table, a), b.wizardType) == Registered(table, b.wizardType);
      assert Registered(Insert(table, b), a.wizardType) == Registered(table, a.wizardType);
    }
  }

  /** Registering keeps every entry non-empty and of its own type. */
  lemma InsertWellFormed(table: Table, d: WizardDescriptor)
    requires WellFormed(table)
    ensures WellFormed(Insert(table, d))
  {
  }

  /** A registered wizard that names an id and enables for an element is offered for it. */
  lemma RegisteredWizardIsOffered<E>(table: Table, d: WizardDescriptor, x: E, isEnabledFor: (WizardDescriptor, E) -> bool)
    requires d.wizardId.Some? && isEnabledFor(d, x)
    ensures d.wizardId in WizardIds(ElementMatches(Registered(Insert(table, d), d.wizardType), x, isEnabledFor))
  {
    WizardIdsMembership(ElementMatches(Registered(Insert(table, d), d.wizardType), x, isEnabledFor), d.wizardId);
  }

  class CommonWizardDescriptorManager {
    var commonWizardDescriptors: Table

    ghost predicate Valid()
      reads this
    {
      WellFormed(commonWizardDescriptors)
    }

    constructor ()
      ensures Valid() && commonWizardDescriptors == map[]
    {
      commonWizardDescriptors := map[];
    }

    /** Registers `aDesc` under its type; a null descriptor is ignored. */
    method AddCommonWizardDescriptor(aDesc: Option<WizardDescriptor>)
      requires Valid()
      modifies this
      ensures Valid()
      ensures aDesc.None? ==> commonWizardDescriptors == old(commonWizardDescriptors)
      ensures aDesc.Some? ==> commonWizardDescriptors == Insert(old(commonWizardDescriptors), aDesc.value)
    {
      if aDesc.None? {
        return;
      }
      var d := aDesc.value;
      InsertWellFormed(commonWizardDescriptors, d);
      ghost var expected := Insert(commonWizardDescriptors, d);
      var descriptors: set<WizardDescriptor>;
      if d.wizardType in commonWizardDescriptors {
        descriptors := commonWizardDescriptors[d.wizardType];
      } else {
        descriptors := {};
        commonWizardDescriptors := commonWizardDescriptors[d.wizardType := descriptors];
      }
      if d !in descriptors {
        descriptors := descriptors + {d};
        commonWizardDescriptors := commonWizardDescriptors[d.wizardType := descriptors];
      } else {
        InsertPresent(commonWizardDescriptors, d);
      }
      assert commonWizardDescriptors == expected;
    }

    /** The ids of the wizards of type `aType` that name an id and enable for `anElement`. */
    method GetEnabledCommonWizardDescriptorIds<E>(anElement: E, aType: string, isEnabledFor: (WizardDescriptor, E) -> bool)
      returns (ids: seq<Option<string>>)
      ensures aType !in commonWizardDescriptors ==> ids == []
      ensures multiset(ids) == WizardIds(ElementMatches(Registered(commonWizardDescriptors, aType), anElement, isEnabledFor))
      ensures forall i | 0 <= i < |ids| :: ids[i].Some?
      ensures |ids| <= |Registered(commonWizardDescriptors, aType)|
    {
      if aType !in commonWizardDescriptors {
        return [];
      }
      var commonDescriptors := commonWizardDescriptors[aType];
      var remaining := commonDescriptors;
      ids := [];
      while remaining != {}
        invariant remaining <= commonDescriptors
        invariant multiset(ids) + WizardIds(ElementMatches(remaining, anElement, isEnabledFor))
          == WizardIds(ElementMatches(commonDescriptors, anElement, isEnabledFor))
        decreases remaining
      {
        var descriptor :| descriptor in remaining;
        ElementMatchesStep(remaining, descriptor, anElement, isEnabledFor);
        if descriptor.wizardId.Some? && isEnabledFor(descriptor, anElement) {
          ids := ids + [descriptor.wizardId];
        }
        remaining := remaining - {descriptor};
      }
      ElementIdsBounds(commonDescriptors, anElement, isEnabledFor);
      assert forall i | 0 <= i < |ids| :: ids[i] in multiset(ids);
    }

    /** The ids of the wizards of type `aType` that enable for `aSelection`; an id may be null. */
    method GetEnabledCommonWizardDescriptorIdsForSelection<S>(aSelection: S, aType: string, isEnabledFor: (WizardDescriptor, S) -> bool)
      returns (ids: seq<Option<string>>)
      ensures aType !in commonWizardDescriptors ==> ids == []
      ensures multiset(ids) == WizardIds(SelectionMatches(Registered(commonWizardDescriptors, aType), aSelection, isEnabledFor))
      ensures |ids| == |SelectionMatches(Registered(commonWizardDescriptors, aType), aSelection, isEnabledFor)|
    {
      if aType !in commonWizardDescriptors {
        return [];
      }
      var commonDescriptors := commonWizardDescriptors[aType];
      var remaining := commonDescriptors;
      ids := [];
      while remaining != {}
        invariant remaining <= commonDescriptors
        invariant multiset(ids) + WizardIds(SelectionMatches(remaining, aSelection, isEnabledFor))
          == WizardIds(SelectionMatches(commonDescriptors, aSelection, isEnabledFor))
        decreases remaining
      {
        var descriptor :| descriptor in remaining;
        SelectionMatchesStep(remaining, descriptor, aSelection, isEnabledFor);
        if isEnabledFor(descriptor, aSelection) {
          ids := ids + [descriptor.wizardId];
        }
        remaining := remaining - {descriptor};
      }
      WizardIdsSize(SelectionMatches(commonDescriptors, aSelection, isEnabledFor));
    }

    /**
     * Reads one configuration element of the wizards extension point: a
     * `commonWizard` element whose descriptor can be built is registered
     * and handled; otherwise, the superclass reader's answer is returned.
     */
    method ReadElement(anElement: ConfigElement, construction: Construction, superResult: bool) returns (handled: bool)
      requires Valid()
      modifies this
      ensures Valid()
      ensures anElement.name == TAG_COMMON_WIZARD && construction.Constructed? ==>
        handled && commonWizardDescriptors == Insert(old(commonWizardDescriptors), construction.descriptor)
      ensures !(anElement.name == TAG_COMMON_WIZARD && construction.Constructed?) ==>
        handled == superResult && commonWizardDescriptors == old(commonWizardDescriptors)
    {
      if anElement.name == TAG_COMMON_WIZARD {
        if construction.Constructed? {
          AddCommonWizardDescriptor(Some(construction.descriptor));
          return true;
        }
      }
      return superResult;
    }
  }
}
