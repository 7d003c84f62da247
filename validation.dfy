/** The structural check applyConfiguration makes before any resolution: a
    profile must have at least as many CRTC sections as there are live
    controllers, and the number of (live controller, section) pairs with
    equal ids must equal the number of live controllers. */
module Validation {
  import opened Hardware
  import opened Records

  /** The verdict of the structural check. */
  datatype Validity = Compatible | TooFewSections | ControllerMapChanged

  /** The number of sections whose `crtc` key is `id`. */
  function Occurrences(id: Id, sections: seq<CrtcSection>): nat
  {
    if sections == [] then 0
    else Occurrences(id, sections[..|sections| - 1]) + (if sections[|sections| - 1].crtc == id then 1 else 0)
  }

  /** The `matched` counter of applyConfiguration: the number of pairs of a
      live id in `ids` and a section with that id. */
  function Matched(ids: seq<Id>, sections: seq<CrtcSection>): nat
  {
    if ids == [] then 0
    else Matched(ids[..|ids| - 1], sections) + Occurrences(ids[|ids| - 1], sections)
  }

  /** The structural check: fewer sections than live controllers is
      rejected first; extra sections are allowed. */
  function ValidateProfile(t: Topology, sections: seq<CrtcSection>): Validity
  {
    if |sections| < |t.crtcs| then TooFewSections
    else if Matched(CrtcIds(t), sections) != |t.crtcs| then ControllerMapChanged
    else Compatible
  }

  /** The ids the sections record, in file order. */
  function SectionIds(sections: seq<CrtcSection>): (ids: seq<Id>)
    ensures |ids| == |sections|
    ensures forall i :: 0 <= i < |ids| ==> ids[i] == sections[i].crtc
  {
    seq(|sections|, i requires 0 <= i < |sections| => sections[i].crtc)
  }

  /** The count and match check of applyConfiguration, with its two nested
      loops over the live controllers and the sections. */
  method CheckControllers(t: Topology, sections: seq<CrtcSection>) returns (v: Validity)
    ensures v == ValidateProfile(t, sections)
  {
    if |sections| < |t.crtcs| {
      return TooFewSections;
    }
    ghost var ids := CrtcIds(t);
    var matched := 0;
    for i := 0 to |t.crtcs|
      invariant matched == Matched(ids[..i], sections)
    {
      var rrCrtc := t.crtcs[i].id;
      for j := 0 to |sections|
        invariant matched == Matched(ids[..i], sections) + Occurrences(rrCrtc, sections[..j])
      {
        assert sections[..j + 1][..j] == sections[..j];
        if rrCrtc == sections[j].crtc {
          matched := matched + 1;
        }
      }
      assert sections[..|sections|] == sections;
      assert ids[..i + 1][..i] == ids[..i];
    }
    assert ids[..|t.crtcs|] == ids;
    if matched != |t.crtcs| {
      return ControllerMapChanged;
    }
    return Compatible;
  }

  /** When section ids are distinct, an id occurs at most once, and once
      exactly when some section records it. */
  lemma {:induction false} OccurrencesDistinct(id: Id, sections: seq<CrtcSection>)
    requires Distinct(SectionIds(sections))
    ensures Occurrences(id, sections) <= 1
    ensures Occurrences(id, sections) == 1 <==> id in SectionIds(sections)
    decreases |sections|
  {
    if sections != [] {
      var init := sections[..|sections| - 1];
      assert SectionIds(init) == SectionIds(sections)[..|sections| - 1];
      OccurrencesDistinct(id, init);
      assert SectionIds(sections) == SectionIds(init) + [sections[|sections| - 1].crtc];
    }
  }

  /** With every occurrence count at most one, the match counter reaches
      the number of live ids exactly when every count is one. */
  lemma {:induction false} MatchedFull(ids: seq<Id>, sections: seq<CrtcSection>)
    requires forall k :: 0 <= k < |ids| ==> Occurrences(ids[k], sections) <= 1
    ensures Matched(ids, sections) <= |ids|
    ensures Matched(ids, sections) == |ids| <==> forall k :: 0 <= k < |ids| ==> Occurrences(ids[k], sections) == 1
    decreases |ids|
  {
    if ids != [] {
      var init := ids[..|ids| - 1];
      forall k | 0 <= k < |init| ensures Occurrences(init[k], sections) <= 1 {
        assert init[k] == ids[k];
      }
      MatchedFull(init, sections);
      if Matched(ids, sections) == |ids| {
        forall k | 0 <= k < |ids| ensures Occurrences(ids[k], sections) == 1 {
          if k < |init| { assert init[k] == ids[k]; }
        }
      }
      if forall k :: 0 <= k < |ids| ==> Occurrences(ids[k], sections) == 1 {
        forall k | 0 <= k < |init| ensures Occurrences(init[k], sections) == 1 {
          assert init[k] == ids[k];
        }
      }
    }
  }

  /** The elements of a sequence, as a set. */
  function Elements(xs: seq<Id>): set<Id>
  {
    set x | x in xs
  }

  /** A sequence has at least as many entries as distinct elements, and
      exactly as many when no element repeats. */
  lemma {:induction false} ElementsCard(xs: seq<Id>)
    ensures |Elements(xs)| <= |xs|
    ensures Distinct(xs) ==> |Elements(xs)| == |xs|
    decreases |xs|
  {
    if xs != [] {
      var init := xs[..|xs| - 1];
      var last := xs[|xs| - 1];
      ElementsCard(init);
      assert xs == init + [last];
      assert Elements(xs) == Elements(init) + {last};
      if Distinct(xs) {
        assert Distinct(init);
        assert last !in Elements(init);
      }
    }
  }

  /** Distinct ids that all occur among the sections' ids need at least as
      many sections. */
  lemma EnoughSections(ids: seq<Id>, sections: seq<CrtcSection>)
    requires Distinct(ids)
    requires forall k :: 0 <= k < |ids| ==> ids[k] in SectionIds(sections)
    ensures |ids| <= |sections|
  {
    ElementsCard(ids);
    ElementsCard(SectionIds(sections));
    var a, b := Elements(ids), Elements(SectionIds(sections));
    assert a <= b;
    assert b == a + (b - a);
    assert |b| == |a| + |b - a|;
  }

  /** With distinct live ids and distinct section ids the check accepts a
      profile exactly when every live controller has a section. Extra
      sections for controllers that are not live are accepted. */
  lemma ValidateDistinct(t: Topology, sections: seq<CrtcSection>)
    requires Distinct(CrtcIds(t)) && Distinct(SectionIds(sections))
    ensures ValidateProfile(t, sections) == Compatible <==>
              forall i :: 0 <= i < |t.crtcs| ==> t.crtcs[i].id in SectionIds(sections)
  {
    var ids := CrtcIds(t);
    forall k | 0 <= k < |ids| ensures Occurrences(ids[k], sections) <= 1 {
      OccurrencesDistinct(ids[k], sections);
    }
    MatchedFull(ids, sections);
    if forall i :: 0 <= i < |t.crtcs| ==> t.crtcs[i].id in SectionIds(sections) {
      EnoughSections(ids, sections);
      forall k | 0 <= k < |ids| ensures Occurrences(ids[k], sections) == 1 {
        OccurrencesDistinct(ids[k], sections);
      }
    }
    if ValidateProfile(t, sections) == Compatible {
      forall i | 0 <= i < |t.crtcs| ensures t.crtcs[i].id in SectionIds(sections) {
        OccurrencesDistinct(ids[i], sections);
      }
    }
  }

  /** The count check only counts, so a profile that names one live
      controller twice passes it even though the other live controller has
      no section at all. */
  lemma DuplicateSectionMasksMissing(t: Topology, s1: CrtcSection, s2: CrtcSection)
    requires |t.crtcs| == 2 && t.crtcs[0].id != t.crtcs[1].id
    requires s1.crtc == t.crtcs[0].id && s2.crtc == t.crtcs[0].id
    ensures t.crtcs[1].id !in SectionIds([s1, s2])
    ensures ValidateProfile(t, [s1, s2]) == Compatible
  {
    var ids := CrtcIds(t);
    var secs := [s1, s2];
    assert secs[..1] == [s1];
    assert [s1][..0] == [];
    assert Occurrences(ids[0], [s1]) == 1;
    assert Occurrences(ids[0], secs) == 2;
    assert Occurrences(ids[1], [s1]) == 0;
    assert Occurrences(ids[1], secs) == 0;
    assert ids[..1] == [ids[0]];
    assert [ids[0]][..0] == [];
    assert Matched(ids[..1], secs) == 2;
  }
}
