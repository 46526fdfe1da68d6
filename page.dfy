/**
 * The pure helpers and constant tables of the application page: the
 * markup filter applied to every generated text, the directory of
 * official resources with its search filter and category list, the
 * contract-category gate and the research progress figure.
 */
module Page {

  import opened Wrappers
  import opened Types
  import opened JsString
  import GeminiService

  /** `a` is `b` with some elements dropped, the rest kept in order. */
  predicate IsSubsequence<T(==)>(a: seq<T>, b: seq<T>)
    decreases |b|
  {
    if a == [] then true
    else if b == [] then false
    else if a[0] == b[0] then IsSubsequence(a[1..], b[1..])
    else IsSubsequence(a, b[1..])
  }

  // ---------------------------------------------------------------------
  // cleanText: `text.replace(/[#*]/g, '')`

  predicate IsMarkup(c: char) {
    c == '#' || c == '*'
  }

  function CleanText(text: string): (r: string)
    ensures forall i :: 0 <= i < |r| ==> !IsMarkup(r[i])
    ensures |r| <= |text|
    decreases |text|
  {
    if text == [] then []
    else (if IsMarkup(text[0]) then [] else [text[0]]) + CleanText(text[1..])
  }

  /** What is kept stays in its original order. */
  lemma {:induction false} CleanTextIsSubsequence(text: string)
    ensures IsSubsequence(CleanText(text), text)
    decreases |text|
  {
    if text != [] {
      var rest := CleanText(text[1..]);
      CleanTextIsSubsequence(text[1..]);
      if IsMarkup(text[0]) {
        assert CleanText(text) == rest;
        SubsequenceOfTail(rest, text);
      } else {
        assert ([text[0]] + rest)[1..] == rest;
      }
    }
  }

  /** Every character other than '#' and '*' is kept, as often as it occurs. */
  lemma {:induction false} CleanTextKeepsOtherCharacters(text: string, c: char)
    requires !IsMarkup(c)
    ensures multiset(CleanText(text))[c] == multiset(text)[c]
    decreases |text|
  {
    if text != [] {
      CleanTextKeepsOtherCharacters(text[1..], c);
      assert text == [text[0]] + text[1..];
    }
  }

  lemma {:induction false} SubsequenceOfTail<T>(a: seq<T>, b: seq<T>)
    requires b != [] && IsSubsequence(a, b[1..])
    ensures IsSubsequence(a, b)
    decreases |a| + |b|
  {
    if a != [] && a[0] == b[0] {
      SubsequenceDropHead(a, b[1..]);
    }
  }

  lemma {:induction false} SubsequenceDropHead<T>(a: seq<T>, b: seq<T>)
    requires a != [] && IsSubsequence(a, b)
    ensures IsSubsequence(a[1..], b)
    decreases |a| + |b|
  {
    if a[0] != b[0] {
      SubsequenceDropHead(a, b[1..]);
    }
    if a[1..] != [] {
      SubsequenceOfTail(a[1..], b);
    }
  }

  /** Cleaning works piecewise, so it keeps the order of what it keeps. */
  lemma {:induction false} CleanTextConcat(a: string, b: string)
    ensures CleanText(a + b) == CleanText(a) + CleanText(b)
    decreases |a|
  {
    if a != [] {
      var head := if IsMarkup(a[0]) then [] else [a[0]];
      assert (a + b)[0] == a[0] && (a + b)[1..] == a[1..] + b;
      CleanTextConcat(a[1..], b);
      assert CleanText(a + b) == head + (CleanText(a[1..]) + CleanText(b));
      assert CleanText(a) == head + CleanText(a[1..]);
    } else {
      assert a + b == b;
    }
  }

  /** Text without markup characters is left as it is. */
  lemma {:induction false} CleanTextKeepsCleanText(text: string)
    requires forall i :: 0 <= i < |text| ==> !IsMarkup(text[i])
    ensures CleanText(text) == text
    decreases |text|
  {
    if text != [] {
      CleanTextKeepsCleanText(text[1..]);
    }
  }

  /** Cleaning twice is cleaning once. */
  lemma CleanTextIdempotent(text: string)
    ensures CleanText(CleanText(text)) == CleanText(text)
  {
    CleanTextKeepsCleanText(CleanText(text));
  }

  // ---------------------------------------------------------------------
  // The directory of official resources.

  /** The label of the catch-all category. */
  const AllCategories := "الكل"

  const OfficialResources: seq<OfficialResource> := [
    OfficialResource("الجريدة الرسمية للجمهورية الجزائرية", "https://www.joradp.dz", "الهيئات السيادية والتشريعية"),
    OfficialResource("بوابة المجلات العلمية الجزائرية ASJP (المرجع الأكاديمي)", "https://www.asjp.cerist.dz", "المصادر الأكاديمية والبحثية"),
    OfficialResource("رئاسة الجمهورية الجزائرية", "https://www.el-mouradia.dz", "الهيئات السيادية والتشريعية"),
    OfficialResource("الوزارة الأولى (الحكومة)", "https://www.cg.gov.dz", "الهيئات السيادية والتشريعية"),
    OfficialResource("المحكمة الدستورية", "https://www.cour-constitutionnelle.dz", "الهيئات السيادية والتشريعية"),
    OfficialResource("المعاهدات الاقتصادية (UNCTAD)", "https://investmentpolicy.unctad.org/international-investment-agreements/countries/4/algeria", "المواثيق والمعاهدات الدولية"),
    OfficialResource("الملكية الفكرية (WIPO LEX)", "https://wipolex.wipo.int/en/main/legislation/c/DZ", "المواثيق والمعاهدات الدولية"),
    OfficialResource("وزارة العدل", "https://www.mjustice.dz", "الوزارات والقطاعات الحكومية"),
    OfficialResource("وزارة الداخلية والجماعات المحلية", "https://www.interieur.gov.dz", "الوزارات والقطاعات الحكومية")
  ]

  /** The search term as compared: lower-cased, then trimmed. */
  function NormalizeTerm(searchTerm: string): string {
    Trim(ToLowerCase(searchTerm))
  }

  predicate MatchesSearch(res: OfficialResource, term: string) {
    Includes(ToLowerCase(res.name), term) || Includes(ToLowerCase(res.url), term)
  }

  predicate MatchesCategory(res: OfficialResource, selectedCategory: string) {
    selectedCategory == AllCategories || res.category == selectedCategory
  }

  predicate Shown(res: OfficialResource, term: string, selectedCategory: string) {
    MatchesSearch(res, term) && MatchesCategory(res, selectedCategory)
  }

  /** `resources.filter(...)`: exactly the matching entries, in their order. */
  function FilterResources(resources: seq<OfficialResource>, term: string, selectedCategory: string)
    : (shown: seq<OfficialResource>)
    ensures IsSubsequence(shown, resources)
    ensures forall i :: 0 <= i < |shown| ==> Shown(shown[i], term, selectedCategory)
    ensures forall i :: (0 <= i < |resources| && Shown(resources[i], term, selectedCategory)) ==>
      resources[i] in shown
    decreases |resources|
  {
    if resources == [] then []
    else
      var rest := FilterResources(resources[1..], term, selectedCategory);
      assert forall i :: 1 <= i < |resources| ==> resources[i] == resources[1..][i - 1];
      if Shown(resources[0], term, selectedCategory) then
        assert ([resources[0]] + rest)[1..] == rest;
        [resources[0]] + rest
      else
        SubsequenceOfTail(rest, resources);
        rest
  }

  /** The list the resources screen shows for a search term and a category. */
  function FilteredResources(searchTerm: string, selectedCategory: string): (shown: seq<OfficialResource>)
    ensures IsSubsequence(shown, OfficialResources)
    ensures forall i :: 0 <= i < |shown| ==>
      Shown(shown[i], NormalizeTerm(searchTerm), selectedCategory)
    ensures forall i ::
      (0 <= i < |OfficialResources| && Shown(OfficialResources[i], NormalizeTerm(searchTerm), selectedCategory)) ==>
      OfficialResources[i] in shown
  {
    FilterResources(OfficialResources, NormalizeTerm(searchTerm), selectedCategory)
  }

  lemma {:induction false} FilterKeepsAllWhenAllShown(resources: seq<OfficialResource>, term: string, selectedCategory: string)
    requires forall i :: 0 <= i < |resources| ==> Shown(resources[i], term, selectedCategory)
    ensures FilterResources(resources, term, selectedCategory) == resources
    decreases |resources|
  {
    if resources != [] {
      FilterKeepsAllWhenAllShown(resources[1..], term, selectedCategory);
      assert [resources[0]] + resources[1..] == resources;
    }
  }

  /** A blank search in the catch-all category lists the whole directory. */
  lemma BlankSearchShowsEverything(searchTerm: string)
    requires NormalizeTerm(searchTerm) == []
    ensures FilteredResources(searchTerm, AllCategories) == OfficialResources
  {
    forall i | 0 <= i < |OfficialResources|
      ensures Shown(OfficialResources[i], [], AllCategories)
    {
      IncludesEmpty(ToLowerCase(OfficialResources[i].name));
    }
    FilterKeepsAllWhenAllShown(OfficialResources, [], AllCategories);
  }

  // ---------------------------------------------------------------------
  // categories: `['الكل', ...Array.from(new Set(resources.map(r => r.category)))]`

  /** Position of the first occurrence of `x` in `xs`, or `|xs|` when absent. */
  function FirstIndex<T(==)>(xs: seq<T>, x: T): (k: nat)
    ensures k <= |xs|
    ensures k < |xs| <==> x in xs
    ensures k < |xs| ==> xs[k] == x && x !in xs[..k]
  {
    if xs == [] then 0
    else if xs[0] == x then 0
    else
      var k := 1 + FirstIndex(xs[1..], x);
      assert k < |xs| ==> xs[..k] == [xs[0]] + xs[1..][..k - 1];
      k
  }

  lemma {:induction false} FirstIndexAppend<T>(xs: seq<T>, y: T, x: T)
    requires x in xs
    ensures FirstIndex(xs + [y], x) == FirstIndex(xs, x)
    decreases |xs|
  {
    if xs[0] != x {
      assert (xs + [y])[1..] == xs[1..] + [y];
      FirstIndexAppend(xs[1..], y, x);
    }
  }

  /** The elements of `xs` without repeats: what inserting them one by one
      into a `Set` and reading it back gives. */
  function Dedup<T(==)>(xs: seq<T>): (r: seq<T>)
    ensures |r| <= |xs|
  {
    if xs == [] then []
    else
      var init := xs[..|xs| - 1];
      if xs[|xs| - 1] in init then Dedup(init) else Dedup(init) + [xs[|xs| - 1]]
  }

  /** Deduplication keeps exactly the elements of the input. */
  lemma {:induction false} DedupElements<T>(xs: seq<T>)
    ensures forall i :: 0 <= i < |Dedup(xs)| ==> Dedup(xs)[i] in xs
    ensures forall i :: 0 <= i < |xs| ==> xs[i] in Dedup(xs)
  {
    if xs != [] {
      var init := xs[..|xs| - 1];
      DedupElements(init);
      assert xs == init + [xs[|xs| - 1]];
    }
  }

  /** Deduplication leaves no element twice. */
  lemma {:induction false} DedupNoRepeats<T>(xs: seq<T>)
    ensures forall i, j :: 0 <= i < j < |Dedup(xs)| ==> Dedup(xs)[i] != Dedup(xs)[j]
  {
    if xs != [] {
      var init := xs[..|xs| - 1];
      DedupNoRepeats(init);
      DedupElements(init);
    }
  }

  /** Deduplication lists the elements in the order of their first appearance. */
  lemma {:induction false} DedupFirstAppearance<T>(xs: seq<T>)
    ensures forall i, j :: 0 <= i < j < |Dedup(xs)| ==>
      FirstIndex(xs, Dedup(xs)[i]) < FirstIndex(xs, Dedup(xs)[j])
  {
    if xs != [] {
      var init := xs[..|xs| - 1];
      var last := xs[|xs| - 1];
      var r := Dedup(init);
      DedupFirstAppearance(init);
      DedupElements(init);
      assert xs == init + [last];
      forall i | 0 <= i < |r| ensures FirstIndex(xs, r[i]) == FirstIndex(init, r[i]) < |init| {
        FirstIndexAppend(init, last, r[i]);
      }
      if last !in init {
        assert FirstIndex(xs, last) == |init|;
      }
    }
  }

  function CategoryOf(res: OfficialResource): string {
    res.category
  }

  function CategoryList(resources: seq<OfficialResource>): (cats: seq<string>)
    ensures |cats| >= 1 && cats[0] == AllCategories
    ensures forall i, j :: 1 <= i < j < |cats| ==> cats[i] != cats[j]
    ensures forall i :: 0 <= i < |resources| ==> resources[i].category in cats[1..]
    ensures forall c :: c in cats[1..] ==> exists i :: 0 <= i < |resources| && resources[i].category == c
    ensures forall i, j :: 1 <= i < j < |cats| ==>
      FirstIndex(Map(CategoryOf, resources), cats[i]) < FirstIndex(Map(CategoryOf, resources), cats[j])
  {
    var all := Map(CategoryOf, resources);
    var d := Dedup(all);
    DedupElements(all);
    DedupNoRepeats(all);
    DedupFirstAppearance(all);
    var cats := [AllCategories] + d;
    assert cats[1..] == d;
    assert forall i :: 0 <= i < |resources| ==> all[i] == resources[i].category;
    cats
  }

  function Map<A, B>(f: A -> B, xs: seq<A>): (ys: seq<B>)
    ensures |ys| == |xs| && forall i :: 0 <= i < |xs| ==> ys[i] == f(xs[i])
  {
    seq(|xs|, i requires 0 <= i < |xs| => f(xs[i]))
  }

  /** The category choices of the resources screen. */
  function Categories(): seq<string> {
    CategoryList(OfficialResources)
  }

  lemma NoResourceUnderAllCategories()
    ensures forall i :: 0 <= i < |OfficialResources| ==> OfficialResources[i].category != AllCategories
  {
  }

  /** No resource is filed under the catch-all label, so no choice appears twice. */
  lemma CategoriesDistinct()
    ensures forall i, j :: 0 <= i < j < |Categories()| ==> Categories()[i] != Categories()[j]
  {
    var cats := Categories();
    NoResourceUnderAllCategories();
    forall j | 1 <= j < |cats| ensures cats[j] != AllCategories {
      assert cats[j] in cats[1..];
      var i :| 0 <= i < |OfficialResources| && OfficialResources[i].category == cats[j];
    }
  }

  // ---------------------------------------------------------------------
  // Contract generation gate.

  datatype ContractCategory = ContractCategory(id: string, displayLabel: string, desc: string, allowed: bool)

  const ContractCategories: seq<ContractCategory> := [
    ContractCategory("financial", "المعاملات المالية", "اعتراف بدين، قرض بين خواص (المادة 327 مدني)", true),
    ContractCategory("services", "الخدمات والمقاولة", "عقد مقاولة، تقديم خدمات استشارية (المادة 549 مدني)", true),
    ContractCategory("movables", "بيع المنقولات", "بيع معدات، أثاث، مواشي (مبدأ الرضائية)", true),
    ContractCategory("obligations", "الالتزامات والتعهدات", "تعهد، تصريح شرفي (قانون الإجراءات الإدارية)", true),
    ContractCategory("realestate", "العقارات والهبات", "عقود تتطلب التوثيق الإلزامي (المادة 324 مكرر 1)", false)
  ]

  /** The text shown instead of a draft for a category that needs a notary. */
  const RefusalText := "نعتذر، المادة 324 مكرر 1 من القانون المدني تلزم صب هذا العقد في قالب رسمي توثيقي."

  /** `categories.find(c => c.id === id)`: the first category with that id. */
  function FindCategory(categories: seq<ContractCategory>, id: string): (found: Option<ContractCategory>)
    ensures found.None? <==> forall i :: 0 <= i < |categories| ==> categories[i].id != id
    ensures found.Some? ==> found.value.id == id
    ensures found.Some? ==>
      exists i :: (0 <= i < |categories| && categories[i] == found.value
                   && forall j :: 0 <= j < i ==> categories[j].id != id)
    decreases |categories|
  {
    if categories == [] then None
    else if categories[0].id == id then Some(categories[0])
    else
      var found := FindCategory(categories[1..], id);
      assert forall i :: 1 <= i < |categories| ==> categories[i] == categories[1..][i - 1];
      if found.Some? then
        var i :| 0 <= i < |categories[1..]| && categories[1..][i] == found.value
          && found.value.id == id && forall j :: 0 <= j < i ==> categories[1..][j].id != id;
        assert categories[i + 1] == found.value;
        found
      else found
  }

  /** `cat?.allowed`: a draft may be requested only for a known category that allows it. */
  function ContractAllowed(id: string): (ok: bool)
    ensures ok <==> id in ["financial", "services", "movables", "obligations"]
  {
    var found := FindCategory(ContractCategories, id);
    found.Some? && found.value.allowed
  }

  // ---------------------------------------------------------------------
  // The research screen.

  /** The section a research run appends in place of the stage that failed. */
  const ErrorMarker := "[حدث خطأ أثناء التوليد، يرجى إعادة المحاولة]"

  /** When the research screen offers the PDF download, as written: the last
      stage has been reached and nothing is loading. */
  function PrintOffered(researchStage: int, loading: bool): bool {
    researchStage == GeminiService.StageCount && !loading
  }

  /** The download offered only for a complete research: in addition, the
      last section is a generated one and not the error marker. */
  function PrintReady(researchStage: int, loading: bool, sections: seq<string>): bool {
    && PrintOffered(researchStage, loading)
    && |sections| == GeminiService.StageCount
    && sections[GeminiService.StageCount - 1] != ErrorMarker
  }

  /** The progress percentage `Math.round((stage / 5) * 100)`, exact for whole stages. */
  function ProgressPercent(stage: int): (percent: int)
    requires 0 <= stage <= GeminiService.StageCount
    ensures 0 <= percent <= 100
    ensures percent * GeminiService.StageCount == stage * 100
  {
    20 * stage
  }
}
