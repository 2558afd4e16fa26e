/**
 * The logic of the template creation dialog that decides what reaches the
 * server: form validity, the list of tag inputs (at most five), and the tag
 * list and visibility flag of the create request.
 */
module CreateDialog {

  /** The characters `String.prototype.trim` removes: white space and line terminators. */
  predicate IsJsWhitespace(c: char) {
    || c == '\t' || c == '\n' || c == '\U{000B}' || c == '\U{000C}' || c == '\r' || c == ' '
    || c == '\U{00A0}' || c == '\U{1680}' || ('\U{2000}' <= c <= '\U{200A}')
    || c == '\U{2028}' || c == '\U{2029}' || c == '\U{202F}' || c == '\U{205F}'
    || c == '\U{3000}' || c == '\U{FEFF}'
  }

  /** A text made of white space only, the empty text included. */
  predicate Blank(s: string) {
    forall i :: 0 <= i < |s| ==> IsJsWhitespace(s[i])
  }

  function TrimStart(s: string): (r: string)
    ensures |r| <= |s| && r == s[|s| - |r|..]
    ensures Blank(s[..|s| - |r|])
    ensures r == [] || !IsJsWhitespace(r[0])
    decreases |s|
  {
    if s != [] && IsJsWhitespace(s[0]) then
      var r := TrimStart(s[1..]);
      assert s[..|s| - |r|] == [s[0]] + s[1..][..|s[1..]| - |r|];
      r
    else s
  }

  function TrimEnd(s: string): (r: string)
    ensures |r| <= |s| && r == s[..|r|]
    ensures Blank(s[|r|..])
    ensures r == [] || !IsJsWhitespace(r[|r| - 1])
    decreases |s|
  {
    if s != [] && IsJsWhitespace(s[|s| - 1]) then
      var r := TrimEnd(s[..|s| - 1]);
      assert s[|r|..] == s[..|s| - 1][|r|..] + [s[|s| - 1]];
      r
    else s
  }

  function Trim(s: string): string {
    TrimEnd(TrimStart(s))
  }

  /** `trim() !== ''` holds exactly for a text with a character that is not white space. */
  lemma TrimEmpty(s: string)
    ensures Trim(s) == "" <==> Blank(s)
  {
    var t := TrimStart(s);
    if Trim(s) == "" {
      assert t[|Trim(s)|..] == t;
      assert t == [];
      assert s[..|s|] == s;
    }
  }

  /** `isFormValid`. */
  predicate IsFormValid(title: string, prompt: string, shareSetting: string) {
    Trim(title) != "" && Trim(prompt) != "" && shareSetting != ""
  }

  /** The form can be submitted iff title and prompt each hold a visible character and a share setting is chosen. */
  lemma FormValidity(title: string, prompt: string, shareSetting: string)
    ensures IsFormValid(title, prompt, shareSetting)
        <==> !Blank(title) && !Blank(prompt) && shareSetting != ""
  {
    TrimEmpty(title);
    TrimEmpty(prompt);
  }

  /** `tagsInputs.filter(tag => tag.trim() !== '')`. */
  function NonBlank(inputs: seq<string>): (r: seq<string>)
    ensures |r| <= |inputs|
    ensures forall t :: t in r ==> t in inputs && !Blank(t)
    ensures forall t :: t in inputs && !Blank(t) ==> t in r
    decreases |inputs|
  {
    if inputs == [] then []
    else
      TrimEmpty(inputs[0]);
      if Trim(inputs[0]) != "" then [inputs[0]] + NonBlank(inputs[1..]) else NonBlank(inputs[1..])
  }

  /** The filter keeps the non-blank inputs in their order: it distributes over concatenation. */
  lemma {:induction false} NonBlankConcat(a: seq<string>, b: seq<string>)
    ensures NonBlank(a + b) == NonBlank(a) + NonBlank(b)
    ensures |a| == 1 ==> NonBlank(a) == if Blank(a[0]) then [] else a
    decreases |a|
  {
    if a != [] {
      assert (a + b)[1..] == a[1..] + b;
      NonBlankConcat(a[1..], b);
      TrimEmpty(a[0]);
    } else {
      assert a + b == b;
    }
  }

  /** `tagsInputs.filter((_, i) => i !== index)`. */
  function WithoutIndex(s: seq<string>, index: int): (r: seq<string>)
    decreases |s|
  {
    if s == [] then []
    else if index == 0 then WithoutIndex(s[1..], -1)
    else [s[0]] + WithoutIndex(s[1..], if index < 0 then -1 else index - 1)
  }

  /** Clearing an index removes exactly that entry and keeps the others in order; any other index keeps the list. */
  lemma {:induction false} WithoutIndexRemoves(s: seq<string>, index: int)
    ensures 0 <= index < |s| ==> WithoutIndex(s, index) == s[..index] + s[index + 1..]
    ensures !(0 <= index < |s|) ==> WithoutIndex(s, index) == s
    decreases |s|
  {
    if s != [] {
      WithoutIndexRemoves(s[1..], -1);
      if index != 0 {
        var j := if index < 0 then -1 else index - 1;
        WithoutIndexRemoves(s[1..], j);
        if 0 <= index < |s| {
          assert s[..index] == [s[0]] + s[1..][..j];
          assert s[index + 1..] == s[1..][j + 1..];
        } else {
          assert s == [s[0]] + s[1..];
        }
      }
    }
  }

  const MaxTagInputs: nat := 5

  datatype CreateTemplateRequest = CreateTemplateRequest(title: string, prompt: string, isPublic: bool, tags: seq<string>)

  /** The dialog's state: title, prompt, share setting, use case and the tag inputs. */
  class Dialog {
    var title: string
    var prompt: string
    var shareSetting: string
    var useCase: string
    var tagsInputs: seq<string>

    /** At most five tag inputs. */
    predicate Valid()
      reads this
    {
      |tagsInputs| <= MaxTagInputs
    }

    constructor ()
      ensures title == "" && prompt == "" && shareSetting == "private" && useCase == "" && tagsInputs == []
      ensures Valid()
    {
      title := "";
      prompt := "";
      shareSetting := "private";
      useCase := "";
      tagsInputs := [];
    }

    /** `addTagInput`: one more empty input below five, otherwise an alert and no change. */
    method AddTagInput() returns (alerted: bool)
      requires Valid()
      modifies this
      ensures Valid()
      ensures alerted <==> |old(tagsInputs)| >= MaxTagInputs
      ensures tagsInputs == if alerted then old(tagsInputs) else old(tagsInputs) + [""]
      ensures title == old(title) && prompt == old(prompt) && shareSetting == old(shareSetting) && useCase == old(useCase)
    {
      if |tagsInputs| < MaxTagInputs {
        tagsInputs := tagsInputs + [""];
        alerted := false;
      } else {
        alerted := true;
      }
    }

    /** Typing into the input at `index`, one of the rendered ones, replaces that entry only. */
    method EditTag(index: nat, value: string)
      requires Valid() && index < |tagsInputs|
      modifies this
      ensures Valid()
      ensures tagsInputs == old(tagsInputs)[index := value]
      ensures title == old(title) && prompt == old(prompt) && shareSetting == old(shareSetting) && useCase == old(useCase)
    {
      var newTags := tagsInputs;
      newTags := newTags[index := value];
      tagsInputs := newTags;
    }

    /** The clear button of the input at `index`. */
    method ClearTag(index: nat)
      requires Valid() && index < |tagsInputs|
      modifies this
      ensures Valid()
      ensures tagsInputs == old(tagsInputs)[..index] + old(tagsInputs)[index + 1..]
      ensures title == old(title) && prompt == old(prompt) && shareSetting == old(shareSetting) && useCase == old(useCase)
    {
      WithoutIndexRemoves(tagsInputs, index);
      tagsInputs := WithoutIndex(tagsInputs, index);
    }

    /**
     * The request `execCreateTemplateAndReload` sends: a private setting sends
     * no tags; a public setting with a use case that is not blank sends the
     * non-blank inputs in order followed by the use case; any other setting,
     * or a blank use case, sends the inputs as they are. The request is
     * public iff the setting is "public".
     */
    method BuildRequest() returns (req: CreateTemplateRequest)
      ensures req.title == title && req.prompt == prompt
      ensures req.isPublic <==> shareSetting == "public"
      ensures shareSetting == "private" ==> req.tags == []
      ensures shareSetting == "public" && !Blank(useCase) ==> req.tags == NonBlank(tagsInputs) + [useCase]
      ensures shareSetting != "private" && (shareSetting != "public" || Blank(useCase)) ==> req.tags == tagsInputs
      ensures Valid() ==> |req.tags| <= MaxTagInputs + 1
    {
      var tags := tagsInputs;
      TrimEmpty(useCase);
      if shareSetting == "private" {
        tags := [];
      } else if shareSetting == "public" && Trim(useCase) != "" {
        tags := NonBlank(tagsInputs);
        tags := tags + [useCase];
      }
      req := CreateTemplateRequest(title, prompt, shareSetting == "public", tags);
    }
  }
}
