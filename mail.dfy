/**
 * The message the contact endpoint hands to the mail relay: the subject line,
 * the HTML rendering (whose message has its line breaks turned into `<br>`)
 * and the plain-text rendering (which carries the message verbatim).
 */
module Mail {
  import opened Validation

  datatype Mail = Mail(from: string, to: string, subject: string, html: string, text: string)

  const SubjectPrefix: string := "New Contact Form Submission from "

  /** The subject line, embedding the submitter's name as given. */
  function Subject(name: string): string
  {
    SubjectPrefix + name
  }

  /** The subject starts with the fixed prefix and ends with the whole name. */
  lemma SubjectEmbedsName(name: string)
    ensures |Subject(name)| == |SubjectPrefix| + |name|
    ensures Subject(name)[..|SubjectPrefix|] == SubjectPrefix
    ensures Subject(name)[|SubjectPrefix|..] == name
  {
  }

  /** Different names give different subjects. */
  lemma SubjectInjective(n1: string, n2: string)
    requires Subject(n1) == Subject(n2)
    ensures n1 == n2
  {
    SubjectEmbedsName(n1);
    SubjectEmbedsName(n2);
  }

  /** Every '\n' replaced by "<br>", every other character kept in place. */
  function ReplaceNewlines(s: string): (r: string)
    ensures '\n' !in r
    ensures |r| == |s| + 3 * multiset(s)['\n']
  {
    if s == [] then []
    else
      assert s == [s[0]] + s[1..];
      (if s[0] == '\n' then "<br>" else [s[0]]) + ReplaceNewlines(s[1..])
  }

  /** Every "<br>" turned back into '\n'. */
  function RestoreNewlines(h: string): string
  {
    if h == [] then []
    else if |h| >= 4 && h[..4] == "<br>" then "\n" + RestoreNewlines(h[4..])
    else [h[0]] + RestoreNewlines(h[1..])
  }

  /** A leading "<br>" is restored to a line break. */
  lemma RestoreBreak(x: string)
    ensures RestoreNewlines("<br>" + x) == "\n" + RestoreNewlines(x)
  {
  }

  /** A leading character other than '<' is kept as it is. */
  lemma RestoreOther(c: char, x: string)
    requires c != '<'
    ensures RestoreNewlines([c] + x) == [c] + RestoreNewlines(x)
  {
  }

  /**
   * For a message without '<', nothing is lost by the substitution: turning
   * every "<br>" back into a line break gives the message back.
   */
  lemma {:induction false} RestoreAfterReplace(s: string)
    requires '<' !in s
    ensures RestoreNewlines(ReplaceNewlines(s)) == s
  {
    if s != [] {
      var rest := ReplaceNewlines(s[1..]);
      assert '<' !in s[1..];
      RestoreAfterReplace(s[1..]);
      if s[0] == '\n' {
        assert ReplaceNewlines(s) == "<br>" + rest;
        RestoreBreak(rest);
      } else {
        assert ReplaceNewlines(s) == [s[0]] + rest;
        RestoreOther(s[0], rest);
      }
      assert s == [s[0]] + s[1..];
    }
  }

  /** A message without line breaks appears in the HTML unchanged. */
  lemma {:induction false} ReplaceKeepsSingleLine(s: string)
    requires '\n' !in s
    ensures ReplaceNewlines(s) == s
  {
    if s != [] {
      assert '\n' !in s[1..] by { assert forall k :: 0 <= k < |s[1..]| ==> s[1..][k] == s[k + 1]; }
      ReplaceKeepsSingleLine(s[1..]);
    }
  }

  /**
   * The interpolated parts of the HTML rendering: the name, the email as a
   * mailto link, the phone as a tel link and the message with `<br>` breaks.
   * The style sheet, headings and labels around them are not modelled.
   */
  function HtmlBody(s: Submission): string
  {
    "<div class=\"value\">" + s.name + "</div>"
    + "<div class=\"value\"><a href=\"mailto:" + s.email + "\">" + s.email + "</a></div>"
    + "<div class=\"value\"><a href=\"tel:" + s.phone + "\">" + s.phone + "</a></div>"
    + HtmlMessage(s.message)
  }

  function HtmlMessage(message: string): string
  {
    "<div class=\"value\">" + ReplaceNewlines(message) + "</div>"
  }

  /** Everything of the plain-text rendering that comes before the message. */
  function TextHead(s: Submission): string
  {
    "\nNew Contact Form Submission\n\nName: " + s.name + "\nEmail: " + s.email + "\nPhone: " + s.phone
    + "\n\nMessage:\n"
  }

  const TextTail: string := "\n\n---\nSent from Fahicart Website Contact Form\n      "

  /** The plain-text rendering. */
  function TextBody(s: Submission): string
  {
    TextHead(s) + s.message + TextTail
  }

  /** The plain-text rendering carries the message verbatim, right after its head. */
  lemma TextKeepsMessage(s: Submission)
    ensures |TextBody(s)| == |TextHead(s)| + |s.message| + |TextTail|
    ensures TextBody(s)[|TextHead(s)|..|TextHead(s)| + |s.message|] == s.message
  {
  }

  /**
   * The message field, with its line breaks turned into `<br>`, is the last of
   * the interpolated HTML fields, and it holds no '\n'.
   */
  lemma HtmlMessageIsLastField(s: Submission)
    ensures |HtmlBody(s)| >= |HtmlMessage(s.message)|
    ensures HtmlBody(s)[|HtmlBody(s)| - |HtmlMessage(s.message)|..] == HtmlMessage(s.message)
    ensures '\n' !in HtmlMessage(s.message)
  {
  }

  /** The message handed to the relay, from the configured sender to the configured inbox. */
  function ComposeMail(from: string, to: string, s: Submission): Mail
  {
    Mail(from, to, Subject(s.name), HtmlBody(s), TextBody(s))
  }
}
