/** The fourteen replacements of the generator and the shape of their words.
    Every key and value is a shared beginning, a part that is replaced and a
    shared end, which is how the table below writes them. */
module Replacements {
  import opened Rewriting

  datatype Name =
    | GroupSuffix | ManagedSpec
    | ReferenceType | SelectorType | KeySelectorType | SecretReferenceType
    | Resolver | ResolutionRequest | ResolutionResponse
    | ScopeMarker | PackagePath | TokenGetter | KeySelectorTest | ReferenceTest

  /** Within pre ... post, drop becomes put. */
  datatype Parts = Parts(pre: string, drop: string, put: string, post: string)

  function PartsOf(n: Name): Parts {
    match n
    case GroupSuffix => Parts("", "m.", "", "crossplane.io")
    case ManagedSpec => Parts("xpv", "2.Managed", "1.", "ResourceSpec")
    case ReferenceType => Parts("xpv1.", "Namespaced", "", "Reference")
    case SelectorType => Parts("xpv1.", "Namespaced", "", "Selector")
    case KeySelectorType => Parts("xpv1.", "Local", "", "SecretKeySelector")
    case SecretReferenceType => Parts("xpv1.", "Local", "", "SecretReference")
    case Resolver => Parts("reference.NewAPI", "Namespaced", "", "Resolver")
    case ResolutionRequest => Parts("reference.", "Namespaced", "", "ResolutionRequest")
    case ResolutionResponse => Parts("reference.", "Namespaced", "", "ResolutionResponse")
    case ScopeMarker => Parts("kubebuilder:resource:", "scope=Namespaced", "scope=Cluster", "")
    case PackagePath => Parts("/", "namespaced/", "cluster/", "")
    case TokenGetter => Parts("GetTokenValue", "FromLocalS", "FromS", "ecret")
    case KeySelectorTest => Parts("TestCreate", "Local", "", "SecretKeySelector")
    case ReferenceTest => Parts("TestCreate", "Local", "", "SecretReference")
  }

  function Build(p: Parts): Rule {
    Rule(p.pre + (p.drop + p.post), p.pre + (p.put + p.post))
  }

  function Of(n: Name): Rule {
    Build(PartsOf(n))
  }

  function All(): set<Rule> {
    set n: Name | true :: Of(n)
  }

  // ------------------------------------------------ where a word may begin

  /** How the keys and values begin; "cro" opens one value and no key. */
  ghost predicate Opens(x: string, cro: bool) {
    && |x| >= 3
    && ((x[0] == 'm' && x[1] == '.')
        || (x[0] == 'x' && x[1] == 'p')
        || (x[0] == 'r' && x[1] == 'e' && x[2] == 'f')
        || (x[0] == 'k' && x[1] == 'u')
        || x[0] == '/'
        || (x[0] == 'G' && x[1] == 'e')
        || (x[0] == 'T' && x[1] == 'e' && x[2] == 's')
        || (cro && x[0] == 'c' && x[1] == 'r' && x[2] == 'o'))
  }

  /** The characters of w from p on contradict every opening. */
  predicate StillAt(w: string, p: nat, cro: bool) {
    p < |w| ==>
      && w[p] != '/'
      && (w[p] == 'm' ==> p + 1 < |w| && w[p + 1] != '.')
      && (w[p] == 'x' ==> p + 1 < |w| && w[p + 1] != 'p')
      && (w[p] == 'k' ==> p + 1 < |w| && w[p + 1] != 'u')
      && (w[p] == 'G' ==> p + 1 < |w| && w[p + 1] != 'e')
      && (w[p] == 'T' ==> p + 1 < |w| && w[p + 1] != 'e')
      && (w[p] == 'r' ==> (p + 1 < |w| && w[p + 1] != 'e') || (p + 2 < |w| && w[p + 2] != 'f'))
      && (cro && w[p] == 'c' ==> (p + 1 < |w| && w[p + 1] != 'r') || (p + 2 < |w| && w[p + 2] != 'o'))
  }

  predicate Still3(w: string, p: nat, lo: nat, hi: nat, cro: bool) {
    && (lo <= p < hi ==> StillAt(w, p, cro))
    && (lo <= p + 1 < hi ==> StillAt(w, p + 1, cro))
    && (lo <= p + 2 < hi ==> StillAt(w, p + 2, cro))
  }

  predicate Still9(w: string, p: nat, lo: nat, hi: nat, cro: bool) {
    Still3(w, p, lo, hi, cro) && Still3(w, p + 3, lo, hi, cro) && Still3(w, p + 6, lo, hi, cro)
  }

  /** StillAt for lo <= p < hi, written out so that it can be checked on a literal. */
  predicate Still(w: string, lo: nat, hi: nat, cro: bool) {
    hi <= 27 && Still9(w, 0, lo, hi, cro) && Still9(w, 9, lo, hi, cro) && Still9(w, 18, lo, hi, cro)
  }

  /** No opening can begin in w between lo and hi. */
  ghost predicate Silent(w: string, lo: nat, hi: nat, cro: bool) {
    forall p, x | lo <= p < hi && Opens(x, cro) :: !Fits(w, x, p)
  }

  lemma StillIsSilent(w: string, lo: nat, hi: nat, cro: bool)
    requires Still(w, lo, hi, cro)
    ensures Silent(w, lo, hi, cro)
  {
    forall p, x | lo <= p < hi && Opens(x, cro) ensures !Fits(w, x, p) {
      assert StillAt(w, p, cro);
      if p < |w| {
        var u := w[p..];
        assert u[0] == w[p];
        assert |u| > 1 ==> u[1] == w[p + 1];
        assert |u| > 2 ==> u[2] == w[p + 2];
      }
    }
  }

  lemma SilentCat(a: string, b: string, lo: nat, hi: nat, cro: bool)
    requires Silent(a, lo, |a|, cro) && Silent(b, 0, hi, cro)
    ensures Silent(a + b, lo, |a| + hi, cro)
  {
    forall p, x | lo <= p < |a| + hi && Opens(x, cro) ensures !Fits(a + b, x, p) {
      if p < |a| {
        FitsFront(a, b, x, p);
      } else {
        FitsBack(a, b, x, p);
      }
    }
  }

  lemma FitsFront(a: string, b: string, x: string, p: nat)
    requires p < |a|
    ensures Fits(a + b, x, p) ==> Fits(a, x, p)
  {
    var u := (a + b)[p..];
    assert u == a[p..] + b;
    if x <= u {
      FitsAt(a, b, x, p);
    } else if u <= x {
      assert a[p..] <= x;
    }
  }

  lemma FitsBack(a: string, b: string, x: string, p: nat)
    requires |a| <= p
    ensures Fits(a + b, x, p) <==> Fits(b, x, p - |a|)
  {
    if p < |a + b| {
      assert (a + b)[p..] == b[p - |a|..];
    }
  }

  function FirstOf(n: Name): char {
    match n
    case GroupSuffix => 'm'
    case ManagedSpec | ReferenceType | SelectorType | KeySelectorType | SecretReferenceType => 'x'
    case Resolver | ResolutionRequest | ResolutionResponse => 'r'
    case ScopeMarker => 'k'
    case PackagePath => '/'
    case TokenGetter => 'G'
    case KeySelectorTest | ReferenceTest => 'T'
  }

  function ValFirstOf(n: Name): char {
    if n == GroupSuffix then 'c' else FirstOf(n)
  }

  function KeyEndOf(n: Name): char {
    match n
    case GroupSuffix => 'o'
    case ManagedSpec => 'c'
    case SelectorType | KeySelectorType | Resolver | KeySelectorTest => 'r'
    case ReferenceType | SecretReferenceType | ResolutionResponse | ReferenceTest => 'e'
    case ResolutionRequest | TokenGetter => 't'
    case ScopeMarker => 'd'
    case PackagePath => '/'
  }

  function ValEndOf(n: Name): char {
    if n == ScopeMarker then 'r' else KeyEndOf(n)
  }

  ghost predicate Shape(w: string, first: char, last: char, cro: bool) {
    && |w| >= 8 && Opens(w, true) && w[0] == first && Last(w) == last
    && Silent(w, 1, |w| - 1, cro)
  }

  ghost predicate ShapeOf(n: Name, r: Rule) {
    && Shape(r.key, FirstOf(n), KeyEndOf(n), n != GroupSuffix) && Opens(r.key, false)
    && Shape(r.val, ValFirstOf(n), ValEndOf(n), n != GroupSuffix) && Opens(r.val, n == GroupSuffix)
  }

  lemma QuietXpv()
    ensures Silent("xpv", 1, 3, true)
  { StillIsSilent("xpv", 1, 3, true); }

  lemma QuietXpv1()
    ensures Silent("xpv1.", 1, 5, true)
  { StillIsSilent("xpv1.", 1, 5, true); }

  lemma QuietNewAPI()
    ensures Silent("reference.NewAPI", 1, 16, true)
  { StillIsSilent("reference.NewAPI", 1, 16, true); }

  lemma QuietReferencePackage()
    ensures Silent("reference.", 1, 10, true)
  { StillIsSilent("reference.", 1, 10, true); }

  lemma QuietGetTokenValue()
    ensures Silent("GetTokenValue", 1, 13, true)
  { StillIsSilent("GetTokenValue", 1, 13, true); }

  lemma QuietTestCreate()
    ensures Silent("TestCreate", 1, 10, true)
  { StillIsSilent("TestCreate", 1, 10, true); }

  lemma QuietKubebuilder()
    ensures Silent("kubebuilder:resource:", 1, 21, true)
  {
    StillIsSilent("kubebuilder:", 1, 12, true);
    StillIsSilent("resource:", 0, 9, true);
    SilentCat("kubebuilder:", "resource:", 1, 9, true);
    assert "kubebuilder:" + "resource:" == "kubebuilder:resource:";
  }

  lemma QuietScope()
    ensures Silent("scope=Namespaced", 0, 15, true)
  { StillIsSilent("scope=Namespaced", 0, 15, true); }

  lemma QuietManaged()
    ensures Silent("2.Managed", 0, 9, true)
  { StillIsSilent("2.Managed", 0, 9, true); }

  lemma QuietResourceSpec()
    ensures Silent("ResourceSpec", 0, 11, true)
  { StillIsSilent("ResourceSpec", 0, 11, true); }

  lemma QuietNamespaced()
    ensures Silent("Namespaced", 0, 10, true)
  { StillIsSilent("Namespaced", 0, 10, true); }

  lemma QuietLocal()
    ensures Silent("Local", 0, 5, true)
  { StillIsSilent("Local", 0, 5, true); }

  lemma QuietReference()
    ensures Silent("Reference", 0, 9, true)
  { StillIsSilent("Reference", 0, 9, true); }

  lemma QuietSelector()
    ensures Silent("Selector", 0, 7, true)
  { StillIsSilent("Selector", 0, 7, true); }

  lemma QuietSecretKeySelector()
    ensures Silent("SecretKeySelector", 0, 16, true)
  { StillIsSilent("SecretKeySelector", 0, 16, true); }

  lemma QuietSecretReference()
    ensures Silent("SecretReference", 0, 15, true)
  { StillIsSilent("SecretReference", 0, 15, true); }

  lemma QuietResolver()
    ensures Silent("Resolver", 0, 7, true)
  { StillIsSilent("Resolver", 0, 7, true); }

  lemma QuietRequest()
    ensures Silent("ResolutionRequest", 0, 17, true)
  { StillIsSilent("ResolutionRequest", 0, 17, true); }

  lemma QuietResponse()
    ensures Silent("ResolutionResponse", 0, 18, true)
  { StillIsSilent("ResolutionResponse", 0, 18, true); }

  lemma QuietPath()
    ensures Silent("namespaced/", 0, 10, true)
  { StillIsSilent("namespaced/", 0, 10, true); }

  lemma QuietFromLocal()
    ensures Silent("FromLocalS", 0, 10, true)
  { StillIsSilent("FromLocalS", 0, 10, true); }

  lemma QuietScopeCluster()
    ensures Silent("scope=Cluster", 0, 12, true)
  { StillIsSilent("scope=Cluster", 0, 12, true); }

  lemma QuietShort()
    ensures Silent("1.", 0, 2, true) && Silent("cluster/", 0, 7, true)
    ensures Silent("FromS", 0, 5, true) && Silent("ecret", 0, 4, true)
  {
    StillIsSilent("1.", 0, 2, true);
    StillIsSilent("cluster/", 0, 7, true);
    StillIsSilent("FromS", 0, 5, true);
    StillIsSilent("ecret", 0, 4, true);
  }

  /** The pieces keep silent, but for the first character of pre and the last of the word. */
  ghost predicate QuietParts(p: Parts) {
    && p.pre != "" && Silent(p.pre, 1, |p.pre|, true)
    && if p.post == "" then
         && p.drop != "" && Silent(p.drop, 0, |p.drop| - 1, true)
         && p.put != "" && Silent(p.put, 0, |p.put| - 1, true)
       else
         && Silent(p.drop, 0, |p.drop|, true) && Silent(p.put, 0, |p.put|, true)
         && Silent(p.post, 0, |p.post| - 1, true)
  }

  lemma QuietPartsOf(n: Name)
    requires n != GroupSuffix
    ensures QuietParts(PartsOf(n))
  {
    QuietShort();
    match n
    case ManagedSpec => QuietXpv(); QuietManaged(); QuietResourceSpec();
    case ReferenceType => QuietXpv1(); QuietNamespaced(); QuietReference();
    case SelectorType => QuietXpv1(); QuietNamespaced(); QuietSelector();
    case KeySelectorType => QuietXpv1(); QuietLocal(); QuietSecretKeySelector();
    case SecretReferenceType => QuietXpv1(); QuietLocal(); QuietSecretReference();
    case Resolver => QuietNewAPI(); QuietNamespaced(); QuietResolver();
    case ResolutionRequest => QuietReferencePackage(); QuietNamespaced(); QuietRequest();
    case ResolutionResponse => QuietReferencePackage(); QuietNamespaced(); QuietResponse();
    case ScopeMarker => QuietKubebuilder(); QuietScope(); QuietScopeCluster();
    case PackagePath => QuietPath();
    case TokenGetter => QuietGetTokenValue(); QuietFromLocal();
    case KeySelectorTest => QuietTestCreate(); QuietLocal(); QuietSecretKeySelector();
    case ReferenceTest => QuietTestCreate(); QuietLocal(); QuietSecretReference();
  }

  lemma SilentWord(pre: string, mid: string, post: string)
    requires pre != "" && Silent(pre, 1, |pre|, true)
    requires post == "" ==> mid != "" && Silent(mid, 0, |mid| - 1, true)
    requires post != "" ==> Silent(mid, 0, |mid|, true) && Silent(post, 0, |post| - 1, true)
    ensures var w := pre + (mid + post); Silent(w, 1, |w| - 1, true)
  {
    if post == "" {
      assert mid + post == mid;
      SilentCat(pre, mid, 1, |mid| - 1, true);
    } else {
      SilentCat(mid, post, 0, |post| - 1, true);
      SilentCat(pre, mid + post, 1, |mid| + |post| - 1, true);
    }
  }

  lemma SilentRule(p: Parts)
    requires QuietParts(p)
    ensures Silent(Build(p).key, 1, |Build(p).key| - 1, true)
    ensures Silent(Build(p).val, 1, |Build(p).val| - 1, true)
  {
    SilentWord(p.pre, p.drop, p.post);
    SilentWord(p.pre, p.put, p.post);
  }

  lemma BeginsOf(n: Name)
    requires n != GroupSuffix
    ensures var pre := PartsOf(n).pre; |pre| >= 1 && pre[0] == FirstOf(n)
    ensures n != PackagePath ==> Opens(PartsOf(n).pre, false)
  {}

  function EndOfParts(mid: string, post: string): char
    requires mid != "" || post != ""
  {
    if post == "" then Last(mid) else Last(post)
  }

  lemma EndsOf(n: Name)
    requires n != GroupSuffix
    ensures var p := PartsOf(n);
      && |p.drop| >= 2 && |p.put| + |p.post| >= 2
      && EndOfParts(p.drop, p.post) == KeyEndOf(n) && EndOfParts(p.put, p.post) == ValEndOf(n)
  {}

  lemma LongOf(n: Name)
    requires n != GroupSuffix
    ensures var p := PartsOf(n);
      |p.pre| + |p.drop| + |p.post| >= 8 && |p.pre| + |p.put| + |p.post| >= 8
  {}

  lemma ShapeOfParts(p: Parts, first: char)
    requires QuietParts(p) && p.pre[0] == first && (first == '/' || Opens(p.pre, false))
    requires |p.drop| >= 2 && |p.put| + |p.post| >= 2
    requires |p.pre| + |p.drop| + |p.post| >= 8 && |p.pre| + |p.put| + |p.post| >= 8
    ensures Shape(Build(p).key, first, EndOfParts(p.drop, p.post), true) && Opens(Build(p).key, false)
    ensures Shape(Build(p).val, first, EndOfParts(p.put, p.post), true) && Opens(Build(p).val, false)
  {
    SilentRule(p);
  }

  lemma GroupSuffixWords()
    ensures Of(GroupSuffix).key == "m." + "crossplane.io" && Of(GroupSuffix).val == "crossplane.io"
  {
    assert "" + ("m." + "crossplane.io") == "m." + "crossplane.io";
    assert "" + ("" + "crossplane.io") == "crossplane.io";
  }

  lemma GroupSuffixSilent()
    ensures Silent("m." + "crossplane.io", 1, 14, false) && Silent("crossplane.io", 1, 12, false)
  {
    StillIsSilent("m.", 1, 2, false);
    StillIsSilent("crossplane.io", 0, 12, false);
    SilentCat("m.", "crossplane.io", 1, 12, false);
  }

  lemma ShapeOfGroupSuffix(key: string, val: string)
    requires key == "m." + "crossplane.io" && val == "crossplane.io"
    ensures Shape(key, 'm', 'o', false) && Opens(key, false) && Shape(val, 'c', 'o', false)
  {
    GroupSuffixSilent();
    var w := "crossplane.io";
    assert |w| == 13 && w[0] == 'c' && w[1] == 'r' && w[2] == 'o' && w[12] == 'o';
  }

  lemma ShapeOfOther(n: Name)
    requires n != GroupSuffix
    ensures ShapeOf(n, Of(n))
  {
    QuietPartsOf(n);
    BeginsOf(n);
    EndsOf(n);
    LongOf(n);
    ShapeOfParts(PartsOf(n), FirstOf(n));
  }

  lemma ShapeOfName(n: Name)
    ensures ShapeOf(n, Of(n))
  {
    if n == GroupSuffix {
      GroupSuffixWords();
      ShapeOfGroupSuffix(Of(n).key, Of(n).val);
    } else {
      ShapeOfOther(n);
    }
  }

  // ------------------------------------------------ no two words coincide

  lemma FitsAgree(u: string, w: string, p: nat, i: nat)
    requires Fits(u, w, p) && i < |w| && p + i < |u|
    ensures u[p + i] == w[i]
  {
    assert u[p..][i] == u[p + i];
  }

  /** Characters at which words with the same opening differ. */
  ghost predicate Probed(n: Name, r: Rule) {
    match n
    case ManagedSpec => |r.key| > 5 && r.key[3] == '2' && |r.val| > 5 && r.val[3] == '1' && r.val[5] == 'R'
    case ReferenceType => |r.key| > 15 && r.key[3] == '1' && r.key[5] == 'N' && r.key[15] == 'R' && |r.val| > 5 && r.val[3] == '1' && r.val[5] == 'R'
    case SelectorType => |r.key| > 15 && r.key[3] == '1' && r.key[5] == 'N' && r.key[15] == 'S' && |r.val| > 5 && r.val[3] == '1' && r.val[5] == 'S'
    case KeySelectorType => |r.key| > 16 && r.key[3] == '1' && r.key[5] == 'L' && r.key[16] == 'K' && |r.val| > 5 && r.val[3] == '1' && r.val[5] == 'S'
    case SecretReferenceType => |r.key| > 16 && r.key[3] == '1' && r.key[5] == 'L' && r.key[16] == 'R' && |r.val| > 5 && r.val[3] == '1' && r.val[5] == 'S'
    case Resolver => |r.key| > 17 && r.key[10] == 'N' && r.key[11] == 'e' && r.key[16] == 'N' && |r.val| > 16 && r.val[10] == 'N' && r.val[11] == 'e' && r.val[16] == 'R'
    case ResolutionRequest => |r.key| > 32 && r.key[10] == 'N' && r.key[11] == 'a' && r.key[32] == 'q' && |r.val| > 11 && r.val[10] == 'R'
    case ResolutionResponse => |r.key| > 32 && r.key[10] == 'N' && r.key[11] == 'a' && r.key[32] == 's' && |r.val| > 11 && r.val[10] == 'R'
    case KeySelectorTest => |r.key| > 21 && r.key[10] == 'L' && r.key[21] == 'K' && |r.val| > 10 && r.val[10] == 'S'
    case ReferenceTest => |r.key| > 21 && r.key[10] == 'L' && r.key[21] == 'R' && |r.val| > 10 && r.val[10] == 'S'
    case ScopeMarker => |r.key| > 27 && r.key[27] == 'N' && |r.val| > 27 && r.val[27] == 'C'
    case PackagePath => |r.key| > 1 && r.key[1] == 'n' && |r.val| > 1 && r.val[1] == 'c'
    case TokenGetter => |r.key| > 17 && r.key[17] == 'L' && |r.val| > 17 && r.val[17] == 'S'
    case GroupSuffix => r.key == "m." + r.val
  }

  lemma ProbedManagedSpec()
    ensures Probed(ManagedSpec, Of(ManagedSpec))
  {}

  lemma ProbedReferenceType()
    ensures Probed(ReferenceType, Of(ReferenceType))
  {}

  lemma ProbedSelectorType()
    ensures Probed(SelectorType, Of(SelectorType))
  {}

  lemma ProbedKeySelectorType()
    ensures Probed(KeySelectorType, Of(KeySelectorType))
  {}

  lemma ProbedSecretReferenceType()
    ensures Probed(SecretReferenceType, Of(SecretReferenceType))
  {}

  lemma ProbedResolver()
    ensures Probed(Resolver, Of(Resolver))
  {}

  lemma ProbedResolutionRequest()
    ensures Probed(ResolutionRequest, Of(ResolutionRequest))
  {}

  lemma ProbedResolutionResponse()
    ensures Probed(ResolutionResponse, Of(ResolutionResponse))
  {}

  lemma ProbedKeySelectorTest()
    ensures Probed(KeySelectorTest, Of(KeySelectorTest))
  {}

  lemma ProbedReferenceTest()
    ensures Probed(ReferenceTest, Of(ReferenceTest))
  {}

  lemma ProbedScopeMarker()
    ensures Probed(ScopeMarker, Of(ScopeMarker))
  {}

  lemma ProbedPackagePath()
    ensures Probed(PackagePath, Of(PackagePath))
  {}

  lemma ProbedTokenGetter()
    ensures Probed(TokenGetter, Of(TokenGetter))
  {}

  lemma ProbedOf(n: Name)
    ensures Probed(n, Of(n))
  {
    match n
    case ManagedSpec => ProbedManagedSpec();
    case ReferenceType => ProbedReferenceType();
    case SelectorType => ProbedSelectorType();
    case KeySelectorType => ProbedKeySelectorType();
    case SecretReferenceType => ProbedSecretReferenceType();
    case Resolver => ProbedResolver();
    case ResolutionRequest => ProbedResolutionRequest();
    case ResolutionResponse => ProbedResolutionResponse();
    case KeySelectorTest => ProbedKeySelectorTest();
    case ReferenceTest => ProbedReferenceTest();
    case ScopeMarker => ProbedScopeMarker();
    case PackagePath => ProbedPackagePath();
    case TokenGetter => ProbedTokenGetter();
    case GroupSuffix => GroupSuffixWords();
  }

  /** What the order argument needs to know of the rule called n. */
  ghost predicate Facts(n: Name, r: Rule) {
    && ShapeOf(n, r) && Probed(n, r)
    && (n == ManagedSpec ==> Silent(Front(r.key), 1, |r.key| - 1, false))
  }

  /** The key of ManagedSpec keeps silent without its last character, too. */
  lemma ManagedSpecFront(key: string)
    requires key == "xpv" + ("2.Managed" + "ResourceSpec")
    ensures Silent(Front(key), 1, |key| - 1, false)
  {
    QuietXpv();
    QuietManaged();
    StillIsSilent("ResourceSpe", 0, 11, true);
    SilentCat("2.Managed", "ResourceSpe", 0, 11, true);
    SilentCat("xpv", "2.Managed" + "ResourceSpe", 1, 20, true);
    assert "ResourceSpec" == "ResourceSpe" + "c";
    assert key == ("xpv" + ("2.Managed" + "ResourceSpe")) + "c";
    assert Front(key) == "xpv" + ("2.Managed" + "ResourceSpe");
    SilentLess(Front(key), 1, |key| - 1);
  }

  lemma SilentLess(w: string, lo: nat, hi: nat)
    requires Silent(w, lo, hi, true)
    ensures Silent(w, lo, hi, false)
  {
    forall p, x | lo <= p < hi && Opens(x, false) ensures !Fits(w, x, p) {
      assert Opens(x, true);
    }
  }

  lemma FactsOf(n: Name)
    ensures Facts(n, Of(n))
  {
    ShapeOfName(n);
    ProbedOf(n);
    if n == ManagedSpec { ManagedSpecFront(Of(n).key); }
  }

  /** Past its first character, a word meets another one only in its last. */
  lemma MeetsAtEnd(w: string, first: char, last: char, cro: bool, x: string, p: nat)
    requires Shape(w, first, last, cro) && Opens(x, cro) && Fits(w, x, p) && p > 0
    ensures p == |w| - 1 && x[0] == last
  {
    if p == |w| - 1 {
      FitsAgree(w, x, p, 0);
    }
  }

  /** No word of another rule is a beginning of a key, or goes on where a key does. */
  lemma Apart(m: Name, r: Rule, n: Name, s: Rule)
    requires m != n && Facts(m, r) && Facts(n, s)
    ensures !Fits(r.key, s.key, 0) && !Fits(r.val, s.key, 0) && !Fits(r.key, s.val, 0)
  {
    ApartKeys(m, r, n, s);
    ApartVal(m, r, n, s);
    ApartVal(n, s, m, r);
    Mirror(r.key, s.val);
  }

  /** A value does not begin like its own key. */
  lemma ApartSelf(n: Name, r: Rule)
    requires Facts(n, r)
    ensures !Fits(r.val, r.key, 0)
  {
    if Fits(r.val, r.key, 0) {
      forall i | 0 <= i < |r.val| && i < |r.key| ensures r.val[i] == r.key[i] {
        FitsAgree(r.val, r.key, 0, i);
      }
      assert false;
    }
  }

  /** Every replacement shortens the text. */
  lemma Shortens(n: Name)
    ensures |Of(n).val| < |Of(n).key|
  {}

  lemma Mirror(u: string, w: string)
    requires u != "" && w != ""
    ensures Fits(u, w, 0) <==> Fits(w, u, 0)
  {
    assert u[0..] == u && w[0..] == w;
  }

  lemma ApartKeys(m: Name, r: Rule, n: Name, s: Rule)
    requires m != n && Facts(m, r) && Facts(n, s)
    ensures !Fits(r.key, s.key, 0)
  {
    if Fits(r.key, s.key, 0) {
      forall i | 0 <= i < |r.key| && i < |s.key| ensures r.key[i] == s.key[i] {
        FitsAgree(r.key, s.key, 0, i);
      }
      assert false;
    }
  }

  lemma ApartVal(m: Name, r: Rule, n: Name, s: Rule)
    requires m != n && Facts(m, r) && Facts(n, s)
    ensures !Fits(r.val, s.key, 0)
  {
    if Fits(r.val, s.key, 0) {
      forall i | 0 <= i < |r.val| && i < |s.key| ensures r.val[i] == s.key[i] {
        FitsAgree(r.val, s.key, 0, i);
      }
      assert false;
    }
  }

  lemma OrthogonalNames(m: Name, r: Rule, n: Name, s: Rule)
    requires m != n && Facts(m, r) && Facts(n, s)
    ensures Orthogonal(r, s)
  {
    Apart(m, r, n, s);
    forall p | Fits(r.key, s.key, p) ensures 0 < p == |r.key| - 1 && Hinge(r, s) {
      MeetsAtEnd(r.key, FirstOf(m), KeyEndOf(m), m != GroupSuffix, s.key, p);
    }
    forall p | Fits(r.val, s.key, p) ensures 0 < p == |r.val| - 1 && (Hinge(r, s) || EndGlue(r, s)) {
      MeetsAtEnd(r.val, ValFirstOf(m), ValEndOf(m), m != GroupSuffix, s.key, p);
    }
    forall p | Fits(r.key, s.val, p) ensures 0 < p == |r.key| - 1 && (Hinge(r, s) || StartGlue(s, r)) {
      MeetsAtEnd(r.key, FirstOf(m), KeyEndOf(m), m != GroupSuffix, s.val, p);
    }
  }
}
