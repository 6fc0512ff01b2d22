/** typedapi/types/enums/trainedmodeltype: the text codec of the trained
    model type. */
module TrainedModelType {
  import opened Wrappers
  import Text

  datatype TrainedModelType = TrainedModelType(name: string)

  const TreeEnsemble := TrainedModelType("tree_ensemble")
  const LangIdent := TrainedModelType("lang_ident")
  const Pytorch := TrainedModelType("pytorch")

  predicate IsConstant(t: TrainedModelType) {
    t in {TreeEnsemble, LangIdent, Pytorch}
  }

  /** String: the name. */
  function String(t: TrainedModelType): (s: string)
    ensures TrainedModelType(s) == t
  {
    t.name
  }

  /** MarshalText: the name, and never an error. */
  function MarshalText(t: TrainedModelType): (r: (string, Option<Error>))
    ensures r.1.None?
    ensures r.0 == String(t)
  {
    (String(t), None)
  }

  /** UnmarshalText: the text, lower-cased and stripped of '"', is matched
      against the three names; unmatched text is kept verbatim, with its
      case and quotes; never an error. */
  function UnmarshalText(text: string): (r: (TrainedModelType, Option<Error>))
    ensures r.1.None?
    ensures Text.EnumKey(text) == "tree_ensemble" ==> r.0 == TreeEnsemble
    ensures Text.EnumKey(text) == "lang_ident" ==> r.0 == LangIdent
    ensures Text.EnumKey(text) == "pytorch" ==> r.0 == Pytorch
    ensures IsConstant(r.0) <==> Text.EnumKey(text) in {"tree_ensemble", "lang_ident", "pytorch"} || IsConstant(TrainedModelType(text))
    ensures !IsConstant(r.0) ==> r.0 == TrainedModelType(text)
  {
    var key := Text.EnumKey(text);
    var t :=
      if key == "tree_ensemble" then TreeEnsemble
      else if key == "lang_ident" then LangIdent
      else if key == "pytorch" then Pytorch
      else TrainedModelType(text);
    (t, None)
  }

  /** Case and quotes do not matter: "\"PyTorch\"" is the Pytorch type. */
  lemma IgnoresCaseAndQuotes()
    ensures UnmarshalText("\"PyTorch\"").0 == Pytorch
  {
    QuotedPytorchKey();
  }

  lemma QuotedPytorchKey() ensures Text.EnumKey("\"PyTorch\"") == "pytorch" {
    QuotedPytorchLower();
    QuotesRemoved();
  }

  lemma QuotedPytorchLower() ensures Text.ToLower("\"PyTorch\"") == "\"pytorch\"" {
  }

  lemma QuotesRemoved() ensures Text.RemoveAll("\"pytorch\"", '"') == "pytorch" {
    var word := "pytorch";
    assert "\"pytorch\"" == ['"'] + word + ['"'];
    Text.Unquote(word, '"');
  }

  /** Each constant's name is its own key. */
  lemma ConstantKeys()
    ensures Text.EnumKey(TreeEnsemble.name) == "tree_ensemble"
    ensures Text.EnumKey(LangIdent.name) == "lang_ident"
    ensures Text.EnumKey(Pytorch.name) == "pytorch"
  {
    TreeEnsembleKey();
    LangIdentKey();
    PytorchKey();
  }

  lemma TreeEnsembleKey() ensures Text.EnumKey("tree_ensemble") == "tree_ensemble" {
    Text.EnumKeyOf("tree_ensemble", "tree_ensemble");
  }

  lemma LangIdentKey() ensures Text.EnumKey("lang_ident") == "lang_ident" {
    Text.EnumKeyOf("lang_ident", "lang_ident");
  }

  lemma PytorchKey() ensures Text.EnumKey("pytorch") == "pytorch" {
    Text.EnumKeyOf("pytorch", "pytorch");
  }

  /** Marshalling then unmarshalling gives each constant back. */
  lemma RoundTrip(t: TrainedModelType)
    requires IsConstant(t)
    ensures UnmarshalText(MarshalText(t).0) == (t, None)
  {
    ConstantKeys();
  }

  /** Normalisation is idempotent: unmarshalling the marshalled result of
      an unmarshalling changes nothing, for every text. */
  lemma UnmarshalIdempotent(text: string)
    ensures var t := UnmarshalText(text).0;
      UnmarshalText(MarshalText(t).0).0 == t
  {
    var t := UnmarshalText(text).0;
    if IsConstant(t) {
      RoundTrip(t);
    }
  }
}
