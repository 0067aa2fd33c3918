/** The preview pane (components/Preview.tsx): a sandboxed frame that shows
    html artifacts and a notice for every other language. */
module PreviewComponent {
  import opened Types
  import Text

  /** The only language the pane previews; compared exactly, case included. */
  const Html := "html"

  const AllowScripts := "allow-scripts"
  const AllowSameOrigin := "allow-same-origin"
  const AllowForms := "allow-forms"
  const AllowModals := "allow-modals"
  const AllowPopups := "allow-popups"

  /** The `sandbox` attribute of the preview frame:
      "allow-scripts allow-same-origin allow-forms allow-modals allow-popups". */
  const SandboxAttribute :=
    AllowScripts + " " + AllowSameOrigin + " " + AllowForms + " " + AllowModals + " " + AllowPopups

  /** The capabilities the frame is granted, one token each. */
  function SandboxGrants(): (grants: seq<string>)
    ensures |grants| == 5
    ensures forall i :: 0 <= i < |grants| ==> ' ' !in grants[i]
  {
    [AllowScripts, AllowSameOrigin, AllowForms, AllowModals, AllowPopups]
  }

  /** Tokenising the attribute yields exactly the five granted capabilities
      and nothing else. */
  lemma SandboxGrantsExactly()
    ensures Text.Split(SandboxAttribute, ' ') == SandboxGrants()
  {
    var g := SandboxGrants();
    var sp := " ";
    var j4 := AllowPopups;
    assert Text.Join(g[4..], ' ') == j4;
    var j3 := AllowModals + sp + j4;
    assert Text.Join(g[3..], ' ') == j3 by { assert g[3..][1..] == g[4..]; }
    var j2 := AllowForms + sp + j3;
    assert Text.Join(g[2..], ' ') == j2 by { assert g[2..][1..] == g[3..]; }
    var j1 := AllowSameOrigin + sp + j2;
    assert Text.Join(g[1..], ' ') == j1 by { assert g[1..][1..] == g[2..]; }
    var j0 := AllowScripts + sp + j1;
    assert Text.Join(g, ' ') == j0;
    Text.ConcatAssoc(AllowScripts + sp + AllowSameOrigin + sp + AllowForms + sp + AllowModals, sp, AllowPopups);
    Text.ConcatAssoc(AllowScripts + sp + AllowSameOrigin + sp + AllowForms + sp, AllowModals, sp + AllowPopups);
    Text.ConcatAssoc(AllowScripts + sp + AllowSameOrigin + sp + AllowForms, sp, j3);
    Text.ConcatAssoc(AllowScripts + sp + AllowSameOrigin + sp, AllowForms, sp + j3);
    Text.ConcatAssoc(AllowScripts + sp + AllowSameOrigin, sp, j2);
    Text.ConcatAssoc(AllowScripts + sp, AllowSameOrigin, sp + j2);
    Text.ConcatAssoc(AllowScripts, sp, j1);
    assert j0 == SandboxAttribute;
    Text.SplitJoin(g, ' ');
  }

  /** What the component renders. */
  datatype View =
    | Frame(sandbox: string)
    | Notice(title: string, body: string)

  const NoticeLead := "Live preview is currently optimized for HTML/CSS/JS web applications. The generated "
  const NoticeTail := " code can be viewed in the editor tab."

  /** The text of the "not available" notice: it names the language, and
      different languages give different notices. */
  function NoticeBody(language: string): (body: string)
    ensures Text.Contains(body, language)
    ensures |body| == |NoticeLead| + |language| + |NoticeTail|
    ensures body[|NoticeLead|..|NoticeLead| + |language|] == language
  {
    Text.ContainsMiddle(NoticeLead, language, NoticeTail);
    NoticeLead + language + NoticeTail
  }

  /** The render branch: a sandboxed frame for html, and for any other
      language a notice that names it. */
  function Render(language: string): (v: View)
    ensures v.Frame? <==> language == Html
    ensures v.Frame? ==> v.sandbox == SandboxAttribute
    ensures v.Notice? ==> v.title == "Preview Not Available" && Text.Contains(v.body, language)
  {
    if language != Html then
      Notice("Preview Not Available", NoticeBody(language))
    else
      Frame(SandboxAttribute)
  }

  /** The document an empty frame holds before anything is written. */
  const BlankDocument := ""

  /** A mounted preview. `frame` is the document inside the iframe, or
      `None` while no iframe is mounted (any language but html). */
  class PreviewFrame {
    var code: string
    var language: string
    var frame: Option<string>

    /** The frame exists only for html, and then shows exactly `code`. */
    ghost predicate Valid()
      reads this
    {
      frame == if language == Html then Some(code) else None
    }

    /** First render: the branch mounts the iframe for html, then the effect
        writes the document. */
    constructor (code: string, language: string)
      ensures Valid()
      ensures this.code == code && this.language == language
    {
      this.code := code;
      this.language := language;
      frame := if language == Html then Some(BlankDocument) else None;
      new;
      UpdateIframe();
    }

    /** `updateIframe`: when there is a frame and the language is html, the
        document is replaced wholesale by `code`; otherwise nothing is
        written. */
    method UpdateIframe()
      modifies this`frame
      ensures frame == if old(frame).Some? && language == Html then Some(code) else old(frame)
    {
      if frame.Some? && language == Html {
        frame := Some(code);
      }
    }

    /** The refresh button, shown only for html while the frame is mounted:
        whatever the document holds, it is replaced by exactly `code`. */
    method Refresh()
      requires language == Html && frame.Some?
      modifies this`frame
      ensures Valid() && frame == Some(code)
    {
      UpdateIframe();
    }

    /** A re-render with new props: the branch mounts or unmounts the iframe,
        and the effect rewrites the document when `code` or `language`
        changed. */
    method SetProps(newCode: string, newLanguage: string)
      requires Valid()
      modifies this
      ensures Valid()
      ensures code == newCode && language == newLanguage
      ensures frame == if newLanguage == Html then Some(newCode) else None
    {
      var changed := newCode != code || newLanguage != language;
      code, language := newCode, newLanguage;
      if language != Html {
        frame := None;
      } else if frame.None? {
        frame := Some(BlankDocument);
      }
      if changed {
        UpdateIframe();
      }
    }
  }

  /** From any document, a second press reproduces what the first wrote:
      both leave exactly `code`, so refreshing is idempotent. */
  method RefreshTwice(p: PreviewFrame)
    requires p.language == Html && p.frame.Some?
    modifies p
    ensures p.Valid() && p.frame == Some(p.code)
    ensures p.code == old(p.code) && p.language == old(p.language)
  {
    p.Refresh();
    ghost var first := p.frame;
    p.Refresh();
    assert p.frame == first;
  }
}
