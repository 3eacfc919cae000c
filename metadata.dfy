/** A layer's descriptive metadata, the editor's text fields that show it,
    and the two directions between them: filling the fields from a metadata
    buffer (`populateLayerMetadata`) and writing the editable ones back
    (`storeMetadata`). */
module LayerMetadata {
  import opened Util

  /** The keyword vocabulary under which ISO topic categories are kept. */
  const TopicCategoryVocabulary: string := "gmd:topicCategory"

  /** The parts of a layer's metadata object that the widget reads or writes.
      `keywords` is the vocabulary -> keyword-list dictionary in its own order;
      `contacts` holds the contacts' names. */
  datatype Metadata = Metadata(
    title: string,
    abstractText: string,
    language: string,
    keywords: seq<(string, seq<string>)>,
    contacts: seq<string>,
    fees: string,
    licenses: seq<string>)

  /** What the metadata tab's text fields currently show. */
  datatype MetadataView = MetadataView(
    title: string,
    abstractText: string,
    isoTopics: string,
    keywords: string,
    dataContact: string,
    metadataContact: string,
    useConstraints: string,
    accessConstraints: string,
    language: string)

  const EmptyView := MetadataView("", "", "", "", "", "", "", "", "")

  /** `keywords().get(vocabulary, [])` */
  function KeywordGroup(kw: seq<(string, seq<string>)>, vocabulary: string): seq<string>
  {
    if |kw| == 0 then []
    else if kw[0].0 == vocabulary then kw[0].1
    else KeywordGroup(kw[1..], vocabulary)
  }

  /** A missing vocabulary gives the empty list; a present one gives the
      keywords of its first entry. */
  lemma {:induction false} KeywordGroupFirst(kw: seq<(string, seq<string>)>, vocabulary: string)
    ensures (forall i :: 0 <= i < |kw| ==> kw[i].0 != vocabulary) ==> KeywordGroup(kw, vocabulary) == []
    ensures forall i :: 0 <= i < |kw| && kw[i].0 == vocabulary && (forall j :: 0 <= j < i ==> kw[j].0 != vocabulary)
              ==> KeywordGroup(kw, vocabulary) == kw[i].1
  {
    if |kw| > 0 && kw[0].0 != vocabulary {
      KeywordGroupFirst(kw[1..], vocabulary);
      assert forall i :: 1 <= i < |kw| ==> kw[i] == kw[1..][i - 1];
      forall i | 0 <= i < |kw| && kw[i].0 == vocabulary && (forall j :: 0 <= j < i ==> kw[j].0 != vocabulary)
        ensures KeywordGroup(kw, vocabulary) == kw[i].1
      {
        assert kw[1..][i - 1].0 == vocabulary;
        assert forall j :: 0 <= j < i - 1 ==> kw[1..][j].0 != vocabulary by {
          forall j | 0 <= j < i - 1 ensures kw[1..][j].0 != vocabulary {
            assert kw[1..][j] == kw[j + 1];
          }
        }
      }
    }
  }

  /** Every keyword of every vocabulary, vocabulary by vocabulary, in order. */
  function FlattenKeywords(kw: seq<(string, seq<string>)>): seq<string>
  {
    if |kw| == 0 then [] else kw[0].1 + FlattenKeywords(kw[1..])
  }

  /** A keyword is shown exactly when some vocabulary holds it. */
  lemma {:induction false} FlattenKeywordsMembers(kw: seq<(string, seq<string>)>, w: string)
    ensures w in FlattenKeywords(kw) <==> exists i :: 0 <= i < |kw| && w in kw[i].1
  {
    if |kw| > 0 {
      FlattenKeywordsMembers(kw[1..], w);
      assert forall i :: 1 <= i < |kw| ==> kw[i] == kw[1..][i - 1];
      if w in FlattenKeywords(kw[1..]) {
        var j :| 0 <= j < |kw[1..]| && w in kw[1..][j].1;
        assert w in kw[j + 1].1;
      }
    }
  }

  /** Flattening goes vocabulary by vocabulary: the keywords of two runs of
      vocabularies are those of the first run followed by those of the
      second. */
  lemma {:induction false} FlattenKeywordsAppend(a: seq<(string, seq<string>)>, b: seq<(string, seq<string>)>)
    ensures FlattenKeywords(a + b) == FlattenKeywords(a) + FlattenKeywords(b)
  {
    if |a| == 0 {
      assert a + b == b;
    } else {
      assert (a + b)[1..] == a[1..] + b;
      FlattenKeywordsAppend(a[1..], b);
    }
  }

  /** The loop of `populateLayerMetadata` that gathers the keywords:
      `keywords.extend(group)` for each vocabulary's group, in order. */
  method CollectKeywords(kw: seq<(string, seq<string>)>) returns (keywords: seq<string>)
    ensures keywords == FlattenKeywords(kw)
  {
    keywords := [];
    var i := 0;
    while i < |kw|
      invariant 0 <= i <= |kw|
      invariant keywords == FlattenKeywords(kw[..i])
    {
      FlattenKeywordsAppend(kw[..i], [kw[i]]);
      assert kw[..i + 1] == kw[..i] + [kw[i]];
      assert FlattenKeywords([kw[i]]) == kw[i].1 by {
        assert [kw[i]][1..] == [];
      }
      keywords := keywords + kw[i].1;
      i := i + 1;
    }
    assert kw[..i] == kw;
  }

  /** The topic categories are among the keywords shown. */
  lemma {:induction false} TopicsAmongKeywords(kw: seq<(string, seq<string>)>, w: string)
    requires w in KeywordGroup(kw, TopicCategoryVocabulary)
    ensures w in FlattenKeywords(kw)
  {
    if kw[0].0 != TopicCategoryVocabulary {
      TopicsAmongKeywords(kw[1..], w);
    }
  }

  /** The text of the ISO topic field. */
  function IsoTopicsText(m: Metadata): string
  {
    Join(',', KeywordGroup(m.keywords, TopicCategoryVocabulary))
  }

  /** The text of the keywords field. */
  function KeywordsText(m: Metadata): string
  {
    Join(',', FlattenKeywords(m.keywords))
  }

  /** The keywords field loses nothing: splitting it at the commas gives the
      keywords back, provided there is one and none contains a comma. */
  lemma {:induction false} KeywordsTextRoundTrip(m: Metadata)
    requires |FlattenKeywords(m.keywords)| >= 1
    requires forall i :: 0 <= i < |FlattenKeywords(m.keywords)| ==> ',' !in FlattenKeywords(m.keywords)[i]
    ensures Split(',', KeywordsText(m)) == FlattenKeywords(m.keywords)
  {
    SplitJoin(',', FlattenKeywords(m.keywords));
  }

  /** The language combo's text once `populateComboBoxes` has filled it
      with `languages`: the first item, or "" when there is none. */
  function FilledLanguageCombo(languages: seq<string>): (r: string)
    ensures languages != [] ==> r in languages
  {
    if languages != [] then languages[0] else ""
  }

  /** `populateLayerMetadata`: fill the text fields from buffer `m`; the two
      contact fields keep their `prior` text when `m` has no contact. The
      language combo holds only the items `languages`, so
      `setCurrentText` selects the buffer's language only when it is one of
      them and otherwise leaves the combo as it was. */
  function PopulateView(m: Metadata, prior: MetadataView, languages: seq<string>): (r: MetadataView)
    ensures r.title == m.title && r.abstractText == m.abstractText
    ensures m.contacts == [] ==> r.dataContact == prior.dataContact && r.metadataContact == prior.metadataContact
    ensures m.contacts != [] ==> r.dataContact == r.metadataContact == m.contacts[0]
    ensures r.accessConstraints == if m.licenses == [] then "" else m.licenses[0]
    ensures r.language == m.language <==> m.language in languages || prior.language == m.language
    ensures r.language != m.language ==> r.language == prior.language
  {
    MetadataView(
      m.title,
      m.abstractText,
      IsoTopicsText(m),
      KeywordsText(m),
      if m.contacts != [] then m.contacts[0] else prior.dataContact,
      if m.contacts != [] then m.contacts[0] else prior.metadataContact,
      m.fees,
      if m.licenses != [] then m.licenses[0] else "",
      if m.language in languages then m.language else prior.language)
  }

  /** `storeMetadata`'s edit of the buffer: only title, abstract and
      language are written back; every other part of `m` is kept. */
  function StoreView(m: Metadata, v: MetadataView): (r: Metadata)
    ensures r.keywords == m.keywords && r.contacts == m.contacts
    ensures r.fees == m.fees && r.licenses == m.licenses
  {
    m.(title := v.title, abstractText := v.abstractText, language := v.language)
  }

  /** Storing fields that were just populated and not edited leaves the
      buffer as it was, provided the combo could show its language; if it
      could not, the language the combo showed before is stored instead.
      Storing edited fields and populating again shows the edits of title
      and abstract, and of the language when it is one of the combo's items
      (the only languages the user can pick). */
  lemma ViewRoundTrip(m: Metadata, prior: MetadataView, v: MetadataView, languages: seq<string>)
    ensures m.language in languages || prior.language == m.language ==>
              StoreView(m, PopulateView(m, prior, languages)) == m
    ensures m.language !in languages ==> StoreView(m, PopulateView(m, prior, languages)).language == prior.language
    ensures var shown := PopulateView(StoreView(m, v), prior, languages);
            && shown.title == v.title && shown.abstractText == v.abstractText
            && (v.language in languages ==> shown.language == v.language)
  {
  }
}
