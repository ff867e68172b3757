/** The table of replacements spelled out, as the generator writes it. */
module Spelling {
  import opened Rewriting
  import opened Replacements

  function Literal(n: Name): Rule {
    match n
    case GroupSuffix => Rule("m.crossplane.io", "crossplane.io")
    case ManagedSpec => Rule("xpv2.ManagedResourceSpec", "xpv1.ResourceSpec")
    case ReferenceType => Rule("xpv1.NamespacedReference", "xpv1.Reference")
    case SelectorType => Rule("xpv1.NamespacedSelector", "xpv1.Selector")
    case KeySelectorType => Rule("xpv1.LocalSecretKeySelector", "xpv1.SecretKeySelector")
    case SecretReferenceType => Rule("xpv1.LocalSecretReference", "xpv1.SecretReference")
    case Resolver => Rule("reference.NewAPINamespacedResolver", "reference.NewAPIResolver")
    case ResolutionRequest => Rule("reference.NamespacedResolutionRequest", "reference.ResolutionRequest")
    case ResolutionResponse => Rule("reference.NamespacedResolutionResponse", "reference.ResolutionResponse")
    case ScopeMarker => Rule("kubebuilder:resource:scope=Namespaced", "kubebuilder:resource:scope=Cluster")
    case PackagePath => Rule("/namespaced/", "/cluster/")
    case TokenGetter => Rule("GetTokenValueFromLocalSecret", "GetTokenValueFromSecret")
    case KeySelectorTest => Rule("TestCreateLocalSecretKeySelector", "TestCreateSecretKeySelector")
    case ReferenceTest => Rule("TestCreateLocalSecretReference", "TestCreateSecretReference")
  }

  lemma GroupSuffixSpelled()
    ensures "" + ("m." + "crossplane.io") == "m.crossplane.io"
    ensures "" + ("" + "crossplane.io") == "crossplane.io"
  {}

  lemma ManagedSpecSpelled()
    ensures "xpv" + ("2.Managed" + "ResourceSpec") == "xpv2.ManagedResourceSpec"
    ensures "xpv" + ("1." + "ResourceSpec") == "xpv1.ResourceSpec"
  {}

  lemma ReferenceTypeSpelled()
    ensures "xpv1." + ("Namespaced" + "Reference") == "xpv1.NamespacedReference"
    ensures "xpv1." + ("" + "Reference") == "xpv1.Reference"
  {}

  lemma SelectorTypeSpelled()
    ensures "xpv1." + ("Namespaced" + "Selector") == "xpv1.NamespacedSelector"
    ensures "xpv1." + ("" + "Selector") == "xpv1.Selector"
  {}

  lemma KeySelectorTypeSpelled()
    ensures "xpv1." + ("Local" + "SecretKeySelector") == "xpv1.LocalSecretKeySelector"
    ensures "xpv1." + ("" + "SecretKeySelector") == "xpv1.SecretKeySelector"
  {}

  lemma SecretReferenceTypeSpelled()
    ensures "xpv1." + ("Local" + "SecretReference") == "xpv1.LocalSecretReference"
    ensures "xpv1." + ("" + "SecretReference") == "xpv1.SecretReference"
  {}

  lemma ResolverSpelled()
    ensures "reference.NewAPI" + ("Namespaced" + "Resolver") == "reference.NewAPINamespacedResolver"
    ensures "reference.NewAPI" + ("" + "Resolver") == "reference.NewAPIResolver"
  {}

  lemma ResolutionRequestSpelled()
    ensures "reference." + ("Namespaced" + "ResolutionRequest") == "reference.NamespacedResolutionRequest"
    ensures "reference." + ("" + "ResolutionRequest") == "reference.ResolutionRequest"
  {}

  lemma ResolutionResponseSpelled()
    ensures "reference." + ("Namespaced" + "ResolutionResponse") == "reference.NamespacedResolutionResponse"
    ensures "reference." + ("" + "ResolutionResponse") == "reference.ResolutionResponse"
  {}

  lemma ScopeMarkerSpelled()
    ensures "kubebuilder:resource:" + ("scope=Namespaced" + "") == "kubebuilder:resource:scope=Namespaced"
    ensures "kubebuilder:resource:" + ("scope=Cluster" + "") == "kubebuilder:resource:scope=Cluster"
  {}

  lemma PackagePathSpelled()
    ensures "/" + ("namespaced/" + "") == "/namespaced/"
    ensures "/" + ("cluster/" + "") == "/cluster/"
  {}

  lemma TokenGetterSpelled()
    ensures "GetTokenValue" + ("FromLocalS" + "ecret") == "GetTokenValueFromLocalSecret"
    ensures "GetTokenValue" + ("FromS" + "ecret") == "GetTokenValueFromSecret"
  {}

  lemma KeySelectorTestSpelled()
    ensures "TestCreate" + ("Local" + "SecretKeySelector") == "TestCreateLocalSecretKeySelector"
    ensures "TestCreate" + ("" + "SecretKeySelector") == "TestCreateSecretKeySelector"
  {}

  lemma ReferenceTestSpelled()
    ensures "TestCreate" + ("Local" + "SecretReference") == "TestCreateLocalSecretReference"
    ensures "TestCreate" + ("" + "SecretReference") == "TestCreateSecretReference"
  {}

  /** The pieces of the table put together are the table. */
  lemma Spelled(n: Name)
    ensures Of(n) == Literal(n)
  {
    match n
    case GroupSuffix => GroupSuffixSpelled();
    case ManagedSpec => ManagedSpecSpelled();
    case ReferenceType => ReferenceTypeSpelled();
    case SelectorType => SelectorTypeSpelled();
    case KeySelectorType => KeySelectorTypeSpelled();
    case SecretReferenceType => SecretReferenceTypeSpelled();
    case Resolver => ResolverSpelled();
    case ResolutionRequest => ResolutionRequestSpelled();
    case ResolutionResponse => ResolutionResponseSpelled();
    case ScopeMarker => ScopeMarkerSpelled();
    case PackagePath => PackagePathSpelled();
    case TokenGetter => TokenGetterSpelled();
    case KeySelectorTest => KeySelectorTestSpelled();
    case ReferenceTest => ReferenceTestSpelled();
  }
}
