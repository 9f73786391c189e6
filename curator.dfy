/**
 * The curator NPC of the museum guide (quration_npc.py, class CuratorNPC).
 *
 * After construction a curator never changes: it holds the section table, the
 * table of comparative pairs, the prompt templates and the retrieval chains.
 * Every request is answered by a pure decision over that state and the
 * visitor's context. The decision yields a `Reply`: a fixed message (no
 * language-model call), a rendered prompt handed to the language model, a
 * question handed to a retrieval chain, or an exception. The language model and
 * the retrieval chains themselves are opaque.
 */
module Curator {
  import opened Wrappers

  // ---------------------------------------------------------------------------
  // Data model
  // ---------------------------------------------------------------------------

  /** One record of the section table. A record without "arts" is modelled with
      `arts == []`, the default the source reads it with. */
  datatype Section = Section(level: int, description: string, arts: seq<string>)

  /** A keyword argument passed to `str.format`. */
  datatype Arg = Text(s: string) | Number(n: int)

  /** A rendered prompt: the template's name, the template text stored under that
      name ("" when there is none) and the keyword arguments it is formatted with. */
  datatype Prompt = Prompt(name: string, template: string, args: map<string, Arg>)

  /** A retrieval-augmented answering chain, built from the documents loaded from
      one `.txt` file. Splitting, embedding and the vector store are opaque. */
  datatype Chain = Chain(source: string, documents: seq<string>)

  /** What a request to the curator produces. */
  datatype Reply =
    | Fixed(message: string)                 // returned as is, no model call
    | Generate(prompt: Prompt)               // the prompt is sent to the language model
    | RunChain(chain: Chain, question: string) // the question is run through a chain
    | Raises(error: string)                  // the call raises

  /** A file of the prompt directory. */
  datatype TextFile = TextFile(name: string, contents: string)

  /** What loading one document file produces: its documents (possibly none), or
      an exception anywhere in loading, splitting, embedding or indexing it. */
  datatype Load = Loaded(documents: seq<string>) | LoadRaises

  /** A file of the document directory. */
  datatype DocFile = DocFile(name: string, load: Load)

  /** The state of a constructed curator. */
  datatype Curator = Curator(
    sectionData: seq<Section>,
    commonAndDifferent: map<string, string>,
    section1Description: string,
    section2Description: string,
    prompts: map<string, string>,
    ragChains: map<string, Chain>)

  const SectionInitialTemplate := "section_narration_initial"
  const SectionWithHistoryTemplate := "section_narration_with_history"
  const AttractionTemplate := "artwork_attraction_narration"
  const ArtworkInitialTemplate := "artwork_narration_initial"
  const ArtworkAdditionalTemplate := "artwork_narration_additional"
  const ArtworkWithHistoryTemplate := "artwork_narration_with_history"

  const InvalidSectionMessage := "잘못된 섹션 번호입니다."
  const AllViewedMessage := "이 섹션의 모든 작품을 감상하셨네요! 다른 섹션도 둘러보시는 건 어떠세요?"
  const RagUnavailableMessage := "RAG 시스템이 설정되지 않았습니다."
  const SectionDataIndexError := "IndexError: list index out of range"
  const UnboundPairError := "UnboundLocalError: common_and_different"

  function NoInformationMessage(artName: string): string
  {
    "'" + artName + "' 작품에 대한 정보가 없습니다."
  }

  /** Python truthiness of an optional string: neither `None` nor "". */
  predicate IsTruthy(s: Option<string>)
  {
    s.Some? && s.value != ""
  }

  /** Python truthiness of an optional list: neither `None` nor []. */
  predicate HasItems(xs: Option<seq<string>>)
  {
    xs.Some? && xs.value != []
  }

  // ---------------------------------------------------------------------------
  // Construction: the prompt registry and the retrieval registry
  // ---------------------------------------------------------------------------

  predicate EndsWith(s: string, suffix: string)
  {
    |suffix| <= |s| && s[|s| - |suffix|..] == suffix
  }

  predicate IsTxt(filename: string)
  {
    EndsWith(filename, ".txt")
  }

  /** `filename.split('.')[0]`: the longest prefix of `filename` without a dot. */
  function Stem(filename: string): (r: string)
    ensures r <= filename
    ensures '.' !in r
    ensures |r| < |filename| ==> filename[|r|] == '.'
  {
    if filename == [] || filename[0] == '.' then [] else [filename[0]] + Stem(filename[1..])
  }

  /** The prompt dictionary after the loop of `__init__` has seen `files`, in
      directory order: each `.txt` file is stored under its stem, and a later file
      with the same stem replaces an earlier one. */
  function PromptRegistry(files: seq<TextFile>): map<string, string>
  {
    if files == [] then map[]
    else
      var m := PromptRegistry(files[..|files| - 1]);
      var f := files[|files| - 1];
      if IsTxt(f.name) then m[Stem(f.name) := f.contents] else m
  }

  /** The template names are exactly the stems of the `.txt` files. */
  lemma {:induction false} PromptRegistryKeys(files: seq<TextFile>, k: string)
    ensures k in PromptRegistry(files) <==>
              exists i :: 0 <= i < |files| && IsTxt(files[i].name) && Stem(files[i].name) == k
  {
    if files != [] {
      var init := files[..|files| - 1];
      PromptRegistryKeys(init, k);
      if k in PromptRegistry(init) {
        var i :| 0 <= i < |init| && IsTxt(init[i].name) && Stem(init[i].name) == k;
        assert files[i] == init[i];
      }
      if exists i :: 0 <= i < |files| && IsTxt(files[i].name) && Stem(files[i].name) == k {
        var i :| 0 <= i < |files| && IsTxt(files[i].name) && Stem(files[i].name) == k;
        if i < |init| {
          assert init[i] == files[i];
        }
      }
    }
  }

  /** A template holds the contents of the last `.txt` file with its stem. */
  lemma {:induction false} PromptRegistryLastWins(files: seq<TextFile>, i: nat)
    requires i < |files| && IsTxt(files[i].name)
    requires forall j :: i < j < |files| && IsTxt(files[j].name) ==> Stem(files[j].name) != Stem(files[i].name)
    ensures Stem(files[i].name) in PromptRegistry(files)
    ensures PromptRegistry(files)[Stem(files[i].name)] == files[i].contents
  {
    if i < |files| - 1 {
      var init := files[..|files| - 1];
      assert init[i] == files[i];
      PromptRegistryLastWins(init, i);
    }
  }

  /** The template-loading loop of `__init__`. */
  method BuildPrompts(files: seq<TextFile>) returns (prompts: map<string, string>)
    ensures prompts == PromptRegistry(files)
  {
    prompts := map[];
    var i := 0;
    while i < |files|
      invariant 0 <= i <= |files|
      invariant prompts == PromptRegistry(files[..i])
    {
      assert files[..i + 1][..i] == files[..i];
      var f := files[i];
      if IsTxt(f.name) {
        prompts := prompts[Stem(f.name) := f.contents];
      }
      i := i + 1;
    }
    assert files[..|files|] == files;
  }

  /** The loop of `_setup_rag` over `docs`, in directory order: `None` when an
      exception escapes it, otherwise the chains built so far. A `.txt` file whose
      loader yields no documents is skipped. */
  function RagLoop(docs: seq<DocFile>): Option<map<string, Chain>>
  {
    if docs == [] then Some(map[])
    else
      match RagLoop(docs[..|docs| - 1])
      case None => None
      case Some(m) =>
        var d := docs[|docs| - 1];
        if !IsTxt(d.name) then Some(m)
        else
          match d.load
          case LoadRaises => None
          case Loaded(ds) => if ds == [] then Some(m) else Some(m[Stem(d.name) := Chain(d.name, ds)])
  }

  /** The result of `_setup_rag`: `listing` is `None` when listing the directory
      raises; any exception yields the empty dictionary. */
  function RagRegistry(listing: Option<seq<DocFile>>): map<string, Chain>
  {
    match listing
    case None => map[]
    case Some(docs) =>
      match RagLoop(docs)
      case None => map[]
      case Some(m) => m
  }

  /** A `.txt` file whose loading raises. */
  predicate RaisesAt(docs: seq<DocFile>, i: int)
  {
    0 <= i < |docs| && IsTxt(docs[i].name) && docs[i].load.LoadRaises?
  }

  /** A `.txt` file that yields at least one document. */
  predicate IndexedAt(docs: seq<DocFile>, i: int)
  {
    0 <= i < |docs| && IsTxt(docs[i].name) && docs[i].load.Loaded? && docs[i].load.documents != []
  }

  /** The loop fails exactly when some `.txt` file raises. */
  lemma {:induction false} RagLoopFailsIffSomeRaises(docs: seq<DocFile>)
    ensures RagLoop(docs).None? <==> exists i :: RaisesAt(docs, i)
  {
    if docs != [] {
      var init := docs[..|docs| - 1];
      RagLoopFailsIffSomeRaises(init);
      forall i | RaisesAt(init, i) ensures RaisesAt(docs, i) {
        assert init[i] == docs[i];
      }
      if RagLoop(init).Some? && RagLoop(docs).None? {
        assert RaisesAt(docs, |docs| - 1);
      }
      if exists i :: RaisesAt(docs, i) {
        var i :| RaisesAt(docs, i);
        if i < |init| {
          assert init[i] == docs[i];
          assert RaisesAt(init, i);
        }
      }
    }
  }

  /** Any exception discards every chain, not only the failing one. */
  lemma RagRegistryAllOrNothing(docs: seq<DocFile>, i: int)
    requires RaisesAt(docs, i)
    ensures RagRegistry(Some(docs)) == map[]
  {
    RagLoopFailsIffSomeRaises(docs);
  }

  /** File `i` is the last `.txt` file of `docs` with stem `k` that yields
      documents. */
  predicate LastIndexedAt(docs: seq<DocFile>, i: int, k: string)
  {
    && IndexedAt(docs, i) && Stem(docs[i].name) == k
    && forall j :: i < j < |docs| && IndexedAt(docs, j) ==> Stem(docs[j].name) != k
  }

  /** The chain built from file `i`. */
  function ChainOf(docs: seq<DocFile>, i: int): Chain
    requires IndexedAt(docs, i)
  {
    Chain(docs[i].name, docs[i].load.documents)
  }

  /** Without an exception, the keys are exactly the stems of the `.txt` files that
      yield documents, and each chain was built from a file with that stem. */
  lemma {:induction false} RagLoopKeys(docs: seq<DocFile>, k: string)
    requires RagLoop(docs).Some?
    ensures k in RagLoop(docs).value <==> exists i :: IndexedAt(docs, i) && Stem(docs[i].name) == k
    ensures k in RagLoop(docs).value ==>
              var ch := RagLoop(docs).value[k];
              IsTxt(ch.source) && Stem(ch.source) == k && ch.documents != []
  {
    if docs != [] {
      var init := docs[..|docs| - 1];
      RagLoopKeys(init, k);
      forall i | IndexedAt(init, i) ensures IndexedAt(docs, i) && docs[i] == init[i] {
        assert init[i] == docs[i];
      }
      if exists i :: IndexedAt(docs, i) && Stem(docs[i].name) == k {
        var i :| IndexedAt(docs, i) && Stem(docs[i].name) == k;
        if i < |init| {
          assert init[i] == docs[i];
          assert IndexedAt(init, i);
        }
      }
    }
  }

  /** Without an exception, the chain under a key is the one built from the last
      `.txt` file with that stem that yields documents, and it holds that file's
      documents: a later file overwrites an earlier one, as dictionary
      assignment does. */
  lemma {:induction false} RagLoopChains(docs: seq<DocFile>, k: string)
    requires RagLoop(docs).Some? && k in RagLoop(docs).value
    ensures exists i :: LastIndexedAt(docs, i, k) && RagLoop(docs).value[k] == ChainOf(docs, i)
  {
    var n := |docs| - 1;
    var init := docs[..n];
    var m := RagLoop(init).value;
    if IndexedAt(docs, n) && Stem(docs[n].name) == k {
      assert LastIndexedAt(docs, n, k);
    } else {
      assert k in m && RagLoop(docs).value[k] == m[k];
      RagLoopChains(init, k);
      var i :| LastIndexedAt(init, i, k) && m[k] == ChainOf(init, i);
      assert init[i] == docs[i];
      forall j | i < j < |docs| && IndexedAt(docs, j) ensures Stem(docs[j].name) != k {
        if j < n {
          assert init[j] == docs[j];
          assert IndexedAt(init, j);
        }
      }
      assert LastIndexedAt(docs, i, k);
    }
  }

  /** A `.txt` file that yields documents supplies the chain for its stem unless
      a later such file has the same stem. */
  lemma {:induction false} RagLoopLastWins(docs: seq<DocFile>, i: int)
    requires 0 <= i < |docs| && RagLoop(docs).Some? && LastIndexedAt(docs, i, Stem(docs[i].name))
    ensures Stem(docs[i].name) in RagLoop(docs).value
    ensures RagLoop(docs).value[Stem(docs[i].name)] == ChainOf(docs, i)
  {
    var k := Stem(docs[i].name);
    RagLoopKeys(docs, k);
    RagLoopChains(docs, k);
    var i' :| LastIndexedAt(docs, i', k) && RagLoop(docs).value[k] == ChainOf(docs, i');
    assert i' == i;
  }

  /** Once the loop has failed on a prefix it has failed on the whole listing. */
  lemma {:induction false} RagLoopFailurePersists(docs: seq<DocFile>, n: nat)
    requires n <= |docs| && RagLoop(docs[..n]).None?
    ensures RagLoop(docs).None?
  {
    if n < |docs| {
      var init := docs[..|docs| - 1];
      assert init[..n] == docs[..n];
      RagLoopFailurePersists(init, n);
    } else {
      assert docs[..n] == docs;
    }
  }

  /** The loop of `_setup_rag` with its try/except: an exception returns an empty
      dictionary, discarding the chains already built. */
  method SetupRag(listing: Option<seq<DocFile>>) returns (chains: map<string, Chain>)
    ensures chains == RagRegistry(listing)
  {
    if listing.None? {
      return map[];
    }
    var docs := listing.value;
    chains := map[];
    var i := 0;
    while i < |docs|
      invariant 0 <= i <= |docs|
      invariant RagLoop(docs[..i]) == Some(chains)
    {
      assert docs[..i + 1][..i] == docs[..i];
      var d := docs[i];
      if IsTxt(d.name) {
        match d.load {
          case LoadRaises =>
            RagLoopFailurePersists(docs, i + 1);
            return map[];
          case Loaded(ds) =>
            if ds != [] {
              chains := chains[Stem(d.name) := Chain(d.name, ds)];
            }
        }
      }
      i := i + 1;
    }
    assert docs[..|docs|] == docs;
  }

  /** `CuratorNPC.__init__`, once the two JSON files are parsed: it reads the first
      two section descriptions (an `IndexError` when there are fewer than two
      sections), loads the templates and sets up the retrieval chains. */
  method NewCurator(sectionData: seq<Section>, commonAndDifferent: map<string, string>,
                    promptFiles: seq<TextFile>, documents: Option<seq<DocFile>>)
    returns (r: Result<Curator, string>)
    ensures |sectionData| < 2 <==> r == Err(SectionDataIndexError)
    ensures r.Ok? <==> |sectionData| >= 2
    ensures r.Ok? ==>
              && r.value.sectionData == sectionData
              && r.value.commonAndDifferent == commonAndDifferent
              && r.value.section1Description == sectionData[0].description
              && r.value.section2Description == sectionData[1].description
              && r.value.prompts == PromptRegistry(promptFiles)
              && r.value.ragChains == RagRegistry(documents)
  {
    if |sectionData| < 2 {
      return Err(SectionDataIndexError);
    }
    var prompts := BuildPrompts(promptFiles);
    var chains := SetupRag(documents);
    r := Ok(Curator(sectionData, commonAndDifferent, sectionData[0].description,
                    sectionData[1].description, prompts, chains));
  }

  // ---------------------------------------------------------------------------
  // Rendering
  // ---------------------------------------------------------------------------

  /** `self.prompts.get(name, '')` formatted with `args`. */
  function Render(c: Curator, name: string, args: map<string, Arg>): Prompt
  {
    Prompt(name, if name in c.prompts then c.prompts[name] else "", args)
  }

  /** A template the registry lacks renders as the empty text. */
  lemma MissingTemplateRendersEmpty(c: Curator, name: string, args: map<string, Arg>)
    requires name !in c.prompts
    ensures Render(c, name, args).template == ""
  {
  }

  // ---------------------------------------------------------------------------
  // Section narration
  // ---------------------------------------------------------------------------

  /** The arguments both section templates are formatted with. */
  function SectionArgs(c: Curator, currentSection: int): map<string, Arg>
  {
    map["section_1_description" := Text(c.section1Description),
        "section_2_description" := Text(c.section2Description),
        "current_section" := Number(currentSection)]
  }

  /** `get_section_narration`: the transition template when a previous work is
      given and non-empty, the initial template otherwise. */
  function SectionNarration(c: Curator, currentSection: int, previousWork: Option<string>): (r: Reply)
    ensures r.Generate?
    ensures r.prompt.name == SectionWithHistoryTemplate <==> IsTruthy(previousWork)
    ensures r.prompt.name == SectionInitialTemplate <==> !IsTruthy(previousWork)
    ensures forall k :: k in SectionArgs(c, currentSection) ==>
              k in r.prompt.args && r.prompt.args[k] == SectionArgs(c, currentSection)[k]
    ensures "previous_work" in r.prompt.args <==> IsTruthy(previousWork)
    ensures IsTruthy(previousWork) ==> r.prompt.args["previous_work"] == Text(previousWork.value)
  {
    if IsTruthy(previousWork) then
      Generate(Render(c, SectionWithHistoryTemplate,
                      SectionArgs(c, currentSection)["previous_work" := Text(previousWork.value)]))
    else
      Generate(Render(c, SectionInitialTemplate, SectionArgs(c, currentSection)))
  }

  /** The section-narration endpoint: the previous work is the last viewed artwork,
      if any. */
  function SectionNarrationRequest(c: Curator, currentSection: int, viewed: Option<seq<string>>): Reply
  {
    var previousWork := if HasItems(viewed) then Some(viewed.value[|viewed.value| - 1]) else None;
    SectionNarration(c, currentSection, previousWork)
  }

  /** The endpoint uses the transition template exactly when the visitor has
      viewed something whose name is not empty, and then names the last one. */
  lemma SectionRequestUsesLastViewed(c: Curator, currentSection: int, viewed: Option<seq<string>>)
    ensures var r := SectionNarrationRequest(c, currentSection, viewed);
            && (r.prompt.name == SectionWithHistoryTemplate <==>
                  HasItems(viewed) && viewed.value[|viewed.value| - 1] != "")
            && (r.prompt.name == SectionWithHistoryTemplate ==>
                  r.prompt.args["previous_work"] == Text(viewed.value[|viewed.value| - 1]))
  {
  }

  // ---------------------------------------------------------------------------
  // Attraction narration
  // ---------------------------------------------------------------------------

  /** The first section record whose level is `level`. */
  function FindSection(sections: seq<Section>, level: int): (r: Option<Section>)
    ensures r.None? <==> forall i :: 0 <= i < |sections| ==> sections[i].level != level
    ensures r.Some? ==> exists i :: 0 <= i < |sections| && sections[i] == r.value
                                  && r.value.level == level
                                  && forall j :: 0 <= j < i ==> sections[j].level != level
  {
    if sections == [] then None
    else if sections[0].level == level then Some(sections[0])
    else
      var r := FindSection(sections[1..], level);
      if r.Some? then
        var i :| 0 <= i < |sections[1..]| && sections[1..][i] == r.value && r.value.level == level
                 && forall j :: 0 <= j < i ==> sections[1..][j].level != level;
        assert sections[i + 1] == r.value;
        r
      else r
  }

  /** The artworks of `arts`, in order, that are not in `viewed`. */
  function Unviewed(arts: seq<string>, viewed: seq<string>): (r: seq<string>)
    ensures forall a :: a in r <==> a in arts && a !in viewed
    ensures |r| <= |arts|
  {
    if arts == [] then []
    else if arts[0] in viewed then Unviewed(arts[1..], viewed)
    else [arts[0]] + Unviewed(arts[1..], viewed)
  }

  /** Filtering keeps the section's order: the result is a subsequence of `arts`. */
  lemma {:induction false} UnviewedIsSubsequence(arts: seq<string>, viewed: seq<string>)
    ensures IsSubsequence(Unviewed(arts, viewed), arts)
  {
    if arts != [] {
      UnviewedIsSubsequence(arts[1..], viewed);
      if arts[0] !in viewed {
        assert ([arts[0]] + Unviewed(arts[1..], viewed))[1..] == Unviewed(arts[1..], viewed);
      }
    }
  }

  /** `sub` is obtained from `s` by deleting elements. */
  predicate IsSubsequence(sub: seq<string>, s: seq<string>)
  {
    if sub == [] then true
    else if s == [] then false
    else if sub[0] == s[0] then IsSubsequence(sub[1..], s[1..])
    else IsSubsequence(sub, s[1..])
  }

  /** The prompt for the artwork picked by the attraction narration. */
  function AttractionPrompt(c: Curator, art: string): Reply
  {
    Generate(Render(c, AttractionTemplate, map["art_name" := Text(art)]))
  }

  /** `get_artwork_attraction_narration`. The random pick is a nondeterministic
      choice among the unviewed artworks of the section. */
  method ArtworkAttractionNarration(c: Curator, currentSection: int, viewed: seq<string>) returns (r: Reply)
    ensures FindSection(c.sectionData, currentSection).None? ==> r == Fixed(InvalidSectionMessage)
    ensures FindSection(c.sectionData, currentSection).Some? ==>
              var arts := FindSection(c.sectionData, currentSection).value.arts;
              && (Unviewed(arts, viewed) == [] ==> r == Fixed(AllViewedMessage))
              && (Unviewed(arts, viewed) != [] ==>
                    exists art :: art in Unviewed(arts, viewed) && r == AttractionPrompt(c, art))
    ensures r.Generate? ==>
              && r.prompt.name == AttractionTemplate
              && r.prompt.args.Keys == {"art_name"}
              && r.prompt.args["art_name"].Text?
              && r.prompt.args["art_name"].s !in viewed
              && exists i :: 0 <= i < |c.sectionData| && c.sectionData[i].level == currentSection
                             && r.prompt.args["art_name"].s in c.sectionData[i].arts
  {
    var section := FindSection(c.sectionData, currentSection);
    if section.None? {
      return Fixed(InvalidSectionMessage);
    }
    var unviewed := Unviewed(section.value.arts, viewed);
    if unviewed == [] {
      return Fixed(AllViewedMessage);
    }
    assert unviewed[0] in unviewed;
    var art :| art in unviewed;
    r := AttractionPrompt(c, art);
  }

  /** The fixed "all viewed" message comes exactly when every artwork of the
      section has been viewed. */
  lemma AllViewedIffCovered(arts: seq<string>, viewed: seq<string>)
    ensures Unviewed(arts, viewed) == [] <==> forall a :: a in arts ==> a in viewed
  {
    if Unviewed(arts, viewed) != [] {
      assert Unviewed(arts, viewed)[0] in Unviewed(arts, viewed);
    }
  }

  // ---------------------------------------------------------------------------
  // Artwork narration
  // ---------------------------------------------------------------------------

  /** The comparative-pair key for `artName` after `previousWork`: first
      "art-prev", then "prev-art". */
  function PairKey(c: Curator, artName: string, previousWork: string): (r: Option<string>)
    ensures r.None? <==> (artName + "-" + previousWork) !in c.commonAndDifferent
                          && (previousWork + "-" + artName) !in c.commonAndDifferent
    ensures (artName + "-" + previousWork) in c.commonAndDifferent ==> r == Some(artName + "-" + previousWork)
    ensures r.Some? ==> r.value in c.commonAndDifferent
                        && (r.value == artName + "-" + previousWork || r.value == previousWork + "-" + artName)
  {
    var key1 := artName + "-" + previousWork;
    var key2 := previousWork + "-" + artName;
    if key1 in c.commonAndDifferent then Some(key1)
    else if key2 in c.commonAndDifferent then Some(key2)
    else None
  }

  /** `_get_artwork_narration_with_history`. The matched KEY, not the stored
      comparison, is what the template receives; with neither key present the
      local variable is unbound and the call raises. */
  function ArtworkNarrationWithHistory(c: Curator, artName: string, previousWork: string): (r: Reply)
    ensures r.Raises? <==> (artName + "-" + previousWork) !in c.commonAndDifferent
                           && (previousWork + "-" + artName) !in c.commonAndDifferent
    ensures r.Raises? ==> r.error == UnboundPairError
    ensures r.Generate? ==>
              && r.prompt.name == ArtworkWithHistoryTemplate
              && r.prompt.args.Keys == {"art_name", "previous_work", "common_and_different"}
              && r.prompt.args["art_name"] == Text(artName)
              && r.prompt.args["previous_work"] == Text(previousWork)
              && r.prompt.args["common_and_different"].Text?
              && r.prompt.args["common_and_different"].s in c.commonAndDifferent
  {
    match PairKey(c, artName, previousWork)
    case None => Raises(UnboundPairError)
    case Some(key) =>
      Generate(Render(c, ArtworkWithHistoryTemplate,
                      map["art_name" := Text(artName), "previous_work" := Text(previousWork),
                          "common_and_different" := Text(key)]))
  }

  /** `get_artwork_narration`: a decision on whether there is a viewing history and
      whether anything has been told yet about this artwork. */
  function ArtworkNarration(c: Curator, artName: string, memory: string, viewed: Option<seq<string>>): (r: Reply)
    ensures r.Raises? ==> HasItems(viewed) && memory == ""
  {
    if HasItems(viewed) && memory == "" then
      ArtworkNarrationWithHistory(c, artName, viewed.value[|viewed.value| - 1])
    else if memory == "" then
      Generate(Render(c, ArtworkInitialTemplate, map["art_name" := Text(artName), "memory" := Text(memory)]))
    else
      Generate(Render(c, ArtworkAdditionalTemplate, map["art_name" := Text(artName), "memory" := Text(memory)]))
  }

  /** The four cases of artwork narration. */
  lemma ArtworkNarrationCases(c: Curator, artName: string, memory: string, viewed: Option<seq<string>>)
    ensures var r := ArtworkNarration(c, artName, memory, viewed);
            && (memory != "" ==>
                  r == Generate(Prompt(ArtworkAdditionalTemplate, Render(c, ArtworkAdditionalTemplate, map[]).template,
                                       map["art_name" := Text(artName), "memory" := Text(memory)])))
            && (memory == "" && !HasItems(viewed) ==>
                  r.Generate? && r.prompt.name == ArtworkInitialTemplate
                  && r.prompt.args == map["art_name" := Text(artName), "memory" := Text("")])
            && (memory == "" && HasItems(viewed) ==>
                  var prev := viewed.value[|viewed.value| - 1];
                  (r.Raises? <==> PairKey(c, artName, prev).None?)
                  && (r.Generate? ==> r.prompt.name == ArtworkWithHistoryTemplate
                                      && r.prompt.args["previous_work"] == Text(prev)))
  {
  }

  /** Once something has been told (`memory != ""`), the history is ignored. */
  lemma AdditionalIgnoresHistory(c: Curator, artName: string, memory: string,
                                 viewed1: Option<seq<string>>, viewed2: Option<seq<string>>)
    requires memory != ""
    ensures ArtworkNarration(c, artName, memory, viewed1) == ArtworkNarration(c, artName, memory, viewed2)
  {
  }

  /** The comparison branch passes the matched key string; the stored comparison
      itself never reaches the prompt. */
  lemma ComparisonPassesKey(c: Curator, artName: string, prev: string)
    requires (artName + "-" + prev) in c.commonAndDifferent
    ensures ArtworkNarrationWithHistory(c, artName, prev).prompt.args["common_and_different"]
            == Text(artName + "-" + prev)
  {
  }

  /** The reversed key is used only when the forward key is absent. */
  lemma ComparisonFallsBackToReversedKey(c: Curator, artName: string, prev: string)
    requires (artName + "-" + prev) !in c.commonAndDifferent
    requires (prev + "-" + artName) in c.commonAndDifferent
    ensures ArtworkNarrationWithHistory(c, artName, prev).prompt.args["common_and_different"]
            == Text(prev + "-" + artName)
  {
  }

  // ---------------------------------------------------------------------------
  // Question answering
  // ---------------------------------------------------------------------------

  /** `answer_question_with_rag`: an empty registry first, then a missing
      artwork, and only otherwise the artwork's chain. */
  function AnswerQuestionWithRag(c: Curator, question: string, artName: string): (r: Reply)
    ensures |c.ragChains| == 0 ==> r == Fixed(RagUnavailableMessage)
    ensures |c.ragChains| > 0 && artName !in c.ragChains ==> r == Fixed(NoInformationMessage(artName))
    ensures r.RunChain? <==> artName in c.ragChains
    ensures r.RunChain? ==> r.chain == c.ragChains[artName] && r.question == question
  {
    if |c.ragChains| == 0 then Fixed(RagUnavailableMessage)
    else if artName !in c.ragChains then Fixed(NoInformationMessage(artName))
    else RunChain(c.ragChains[artName], question)
  }

  /** For a curator built by `NewCurator`, a question about an artwork is run
      through the chain built from the documents of the last `.txt` file with
      that artwork's stem. */
  lemma AnswerUsesOwnDocument(c: Curator, documents: Option<seq<DocFile>>, question: string, artName: string)
    requires c.ragChains == RagRegistry(documents)
    ensures var r := AnswerQuestionWithRag(c, question, artName);
            r.RunChain? ==> && documents.Some?
                            && exists i :: LastIndexedAt(documents.value, i, artName)
                                           && r.chain == ChainOf(documents.value, i)
                                           && r.chain.documents == documents.value[i].load.documents
  {
    if documents.Some? && RagLoop(documents.value).Some? && artName in c.ragChains {
      RagLoopChains(documents.value, artName);
    }
  }
}
