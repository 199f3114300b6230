/**
 * AIWA_Feedback::submit_feedback: the admin-post handler of the feedback
 * form. It reads and checks the form, labels the feedback type and the
 * rating, mails the feedback to the plugin's authors and, only if that
 * mail went out, a confirmation to the sender, then redirects with the
 * result.
 *
 * wp_mail is a mailer object whose verdict on each mail is given; the
 * sanitizers, intval and the site details are parameters.
 */
module Feedback {
  import opened Wrappers
  import opened Php

  /** One wp_mail($to, $subject, $body, $headers) call. */
  datatype Mail = Mail(to: string, subject: string, body: string, headers: seq<string>)

  /** wp_mail: records every mail handed to it and reports whether it was accepted. */
  class Mailer {
    var sent: seq<Mail>
    const accepts: Mail -> bool

    constructor(accepts: Mail -> bool)
      ensures sent == [] && this.accepts == accepts
    {
      sent := [];
      this.accepts := accepts;
    }

    method Send(m: Mail) returns (ok: bool)
      modifies this`sent
      ensures sent == old(sent) + [m]
      ensures ok == accepts(m)
    {
      sent := sent + [m];
      ok := accepts(m);
    }
  }

  /** The WordPress functions submit_feedback calls on the posted fields. */
  datatype Host = Host(
    sanitizeText: string -> string,      // sanitize_text_field
    sanitizeEmail: string -> string,     // sanitize_email
    sanitizeTextarea: string -> string,  // sanitize_textarea_field
    intval: string -> int)               // intval

  /** The site and user details the feedback mail reports. */
  datatype Site = Site(
    userLogin: string, roles: seq<string>, siteUrl: string,
    wpVersion: string, phpVersion: string, pluginVersion: string, timestamp: string)

  /** The five form fields after sanitizing; "" where a field was not posted. */
  datatype Form = Form(name: string, email: string, kind: string, rating: string, message: string)

  const Recipient: string := "contact@krtrim.tech"
  const FeedbackPage: string := "admin.php?page=wp-content-helper-feedback"
  const MissingFieldsQuery: string := "&error=1"
  const SubmittedQuery: string := "&submitted=1"
  const NotSentQuery: string := "&error=2"
  const Rule: string := "====================================\n"
  const Star: char := '⭐'
  const NotRated: string := "Not rated"

  function Posted(post: map<string, string>, field: string, sanitize: string -> string): string {
    if field in post then sanitize(post[field]) else ""
  }

  function ReadForm(post: map<string, string>, host: Host): Form {
    Form(Posted(post, "feedback_name", host.sanitizeText),
         Posted(post, "feedback_email", host.sanitizeEmail),
         Posted(post, "feedback_type", host.sanitizeText),
         Posted(post, "feedback_rating", host.sanitizeText),
         Posted(post, "feedback_message", host.sanitizeTextarea))
  }

  /** Name, e-mail, type and message are required, in PHP's sense of empty. */
  predicate Filled(form: Form) {
    !IsEmpty(form.name) && !IsEmpty(form.email) && !IsEmpty(form.kind) && !IsEmpty(form.message)
  }

  /** The fixed labels of the known feedback types. */
  const TypeLabels: map<string, string> := map[
    "bug" := "🐛 Bug Report",
    "feature" := "✨ Feature Request",
    "improvement" := "🎨 Improvement Suggestion",
    "question" := "❓ Question",
    "praise" := "❤️ Praise",
    "other" := "💭 Other"]

  /** A known type's label; any other type is shown as it was posted. */
  function TypeLabel(kind: string): (shown: string)
    ensures kind in TypeLabels ==> shown == TypeLabels[kind]
    ensures kind !in TypeLabels ==> shown == kind
  {
    if kind in TypeLabels then TypeLabels[kind] else kind
  }

  /** No label is itself a type name, so the label is the type exactly when the type is unknown. */
  lemma TypeLabelPassesThroughExactlyUnknown(kind: string)
    ensures TypeLabel(kind) == kind <==> kind !in TypeLabels
  {
    if kind in TypeLabels {
      assert |TypeLabels[kind]| > |kind|;
    }
  }

  /** str_repeat('⭐', n) */
  function Stars(n: nat): (r: string)
    ensures |r| == n && forall i :: 0 <= i < n ==> r[i] == Star
  {
    seq(n, _ => Star)
  }

  /**
   * The rating line: one star per point of the rating's integer value, or
   * "Not rated" for an empty rating. None where PHP 8's str_repeat throws,
   * for a rating whose integer value is negative.
   */
  function RatingLabel(rating: string, intval: string -> int): (shown: Option<string>)
    ensures IsEmpty(rating) ==> shown == Some(NotRated)
    ensures !IsEmpty(rating) && intval(rating) < 0 ==> shown.None?
    ensures !IsEmpty(rating) && intval(rating) >= 0 ==>
      shown.Some? && |shown.value| == intval(rating) && forall i :: 0 <= i < |shown.value| ==> shown.value[i] == Star
  {
    if IsEmpty(rating) then Some(NotRated)
    else if intval(rating) < 0 then None
    else Some(Stars(intval(rating)))
  }

  /** The roles joined with ", " between them. */
  function Join(items: seq<string>): string {
    if items == [] then ""
    else if |items| == 1 then items[0]
    else items[0] + ", " + Join(items[1..])
  }

  const SubjectHead: string := "[WP Content Helper] "
  const SubjectMiddle: string := " from "

  /** The admin mail's subject: the plugin's tag, the type label, then the sender's name. */
  function Subject(typeLabel: string, name: string): (s: string)
    ensures |s| == |SubjectHead| + |typeLabel| + |SubjectMiddle| + |name|
    ensures s[..|SubjectHead|] == SubjectHead
    ensures s[|SubjectHead|..|SubjectHead| + |typeLabel|] == typeLabel
    ensures s[|s| - |name|..] == name
  {
    var s := SubjectHead + typeLabel + SubjectMiddle + name;
    assert s[..|SubjectHead|] == SubjectHead;
    assert s[|SubjectHead|..|SubjectHead| + |typeLabel|] == typeLabel;
    s
  }

  /** Two subjects with type labels of one length are equal only for the same label and the same sender. */
  lemma SubjectDeterminesInputs(label1: string, name1: string, label2: string, name2: string)
    requires |label1| == |label2|
    requires Subject(label1, name1) == Subject(label2, name2)
    ensures label1 == label2 && name1 == name2
  {
    var s := Subject(label1, name1);
    assert name1 == s[|s| - |name1|..];
  }

  /** The headers of the mail to the authors. */
  function AdminHeaders(name: string, email: string): (h: seq<string>)
    ensures |h| == 3
  {
    ["From: " + name + " <" + email + ">",
     "Reply-To: " + email,
     "Content-Type: text/plain; charset=UTF-8"]
  }

  predicate StartsWith(s: string, prefix: string) {
    |prefix| <= |s| && s[..|prefix|] == prefix
  }

  /** Exactly one header is a Reply-To, and it names the sender's address. */
  lemma ReplyGoesToSender(name: string, email: string)
    ensures var h := AdminHeaders(name, email);
      && h[1] == "Reply-To: " + email
      && forall i :: 0 <= i < |h| && StartsWith(h[i], "Reply-To: ") ==> i == 1
  {
    var h := AdminHeaders(name, email);
    assert StartsWith(h[1], "Reply-To: ") ==> true;
    assert !StartsWith(h[0], "Reply-To: ") by { assert h[0][0] == 'F'; }
    assert !StartsWith(h[2], "Reply-To: ") by { assert h[2][0] == 'C'; }
  }

  /** The body of the mail to the authors, one `.=` piece per element. */
  function AdminBodyPieces(form: Form, site: Site, typeLabel: string, ratingLabel: string): seq<string> {
    ["New feedback received from WP Content Helper plugin:\n\n",
     Rule, "SENDER INFORMATION\n", Rule,
     "Name: " + form.name + "\n",
     "Email: " + form.email + "\n",
     "Username: " + site.userLogin + "\n",
     "User Role: " + Join(site.roles) + "\n",
     "\n",
     Rule, "FEEDBACK DETAILS\n", Rule,
     "Type: " + typeLabel + "\n",
     "Rating: " + ratingLabel + "\n",
     "\n",
     "Message:\n",
     form.message + "\n",
     "\n",
     Rule, "TECHNICAL INFORMATION\n", Rule,
     "Site URL: " + site.siteUrl + "\n",
     "WordPress Version: " + site.wpVersion + "\n",
     "PHP Version: " + site.phpVersion + "\n",
     "Plugin Version: " + site.pluginVersion + "\n",
     "Timestamp: " + site.timestamp + "\n"]
  }

  const ThanksPiece: string := "Thank you for your feedback! " + "We've received your message and will review it shortly.\n\n"
  const HelpsPiece: string := "Your feedback helps us " + "improve WP Content Helper.\n\n"

  /** The pieces of the confirmation to the sender; the rating piece only for a rating PHP calls non-empty. */
  function UserBodyPieces(form: Form, typeLabel: string, ratingLabel: string): seq<string> {
    ["Hi " + form.name + ",\n\n",
     ThanksPiece,
     HelpsPiece,
     "Feedback Type: " + typeLabel + "\n"]
    + (if !IsEmpty(form.rating) then ["Rating: " + ratingLabel + "\n"] else [])
    + ["\n", "Best regards,\n", "Krtrim Team\n", "https://github.com/krtrimtech\n"]
  }

  /** The pieces joined in order, as the `.=` appends leave them. */
  function Concat(pieces: seq<string>): string {
    if pieces == [] then "" else pieces[0] + Concat(pieces[1..])
  }

  /**
   * The confirmation has a Rating line exactly when the rating is
   * non-empty in PHP's sense: no other piece starts with "Rating: ".
   */
  lemma ConfirmationRatingLine(form: Form, typeLabel: string, ratingLabel: string)
    ensures var pieces := UserBodyPieces(form, typeLabel, ratingLabel);
      (exists i :: 0 <= i < |pieces| && StartsWith(pieces[i], "Rating: ")) <==> !IsEmpty(form.rating)
  {
    var pieces := UserBodyPieces(form, typeLabel, ratingLabel);
    var r := "Rating: ";
    forall i | 0 <= i < |pieces| && pieces[i][0] != 'R'
      ensures !StartsWith(pieces[i], r)
    {
    }
    if !IsEmpty(form.rating) {
      assert StartsWith(pieces[4], r);
    } else {
      assert |pieces| == 8;
      assert pieces[0][0] == 'H' && pieces[3][0] == 'F';
      assert pieces[1][0] == 'T' && pieces[2][0] == 'Y';
      assert pieces[4..] == ["\n", "Best regards,\n", "Krtrim Team\n", "https://github.com/krtrimtech\n"];
      assert pieces[4][0] == '\n' && pieces[5][0] == 'B' && pieces[6][0] == 'K' && pieces[7][0] == 'h';
    }
  }

  /** The mail to the authors carries the message verbatim on a piece of its own, after "Message:". */
  lemma AdminBodyCarriesMessage(form: Form, site: Site, typeLabel: string, ratingLabel: string)
    ensures var pieces := AdminBodyPieces(form, site, typeLabel, ratingLabel);
      pieces[15] == "Message:\n" && pieces[16] == form.message + "\n"
      && pieces[13] == "Rating: " + ratingLabel + "\n"
  {
  }

  function AdminMail(form: Form, site: Site, ratingLabel: string): Mail {
    var typeLabel := TypeLabel(form.kind);
    Mail(Recipient, Subject(typeLabel, form.name), Concat(AdminBodyPieces(form, site, typeLabel, ratingLabel)),
         AdminHeaders(form.name, form.email))
  }

  const ConfirmationSubject: string := "Thank you for your feedback - WP Content Helper"

  function ConfirmationMail(form: Form, ratingLabel: string): Mail {
    Mail(form.email, ConfirmationSubject, Concat(UserBodyPieces(form, TypeLabel(form.kind), ratingLabel)),
         ["From: WP Content Helper <contact@krtrim.tech>", "Content-Type: text/plain; charset=UTF-8"])
  }

  /** The mails a filled-in form leads to: the feedback, and the confirmation only if the feedback was accepted. */
  function Deliveries(form: Form, site: Site, ratingLabel: string, accepts: Mail -> bool): seq<Mail> {
    var admin := AdminMail(form, site, ratingLabel);
    [admin] + if accepts(admin) then [ConfirmationMail(form, ratingLabel)] else []
  }

  /**
   * The first mail always goes to the authors; a second mail, to the
   * sender, exists exactly when the first was accepted.
   */
  lemma ConfirmationOnlyAfterDelivery(form: Form, site: Site, ratingLabel: string, accepts: Mail -> bool)
    ensures var mails := Deliveries(form, site, ratingLabel, accepts);
      && mails[0].to == Recipient
      && mails[0].subject == Subject(TypeLabel(form.kind), form.name)
      && (|mails| == 2 <==> accepts(mails[0]))
      && (|mails| == 2 ==> mails[1].to == form.email)
      && |mails| <= 2
  {
  }

  /** Where the handler sends the browser once it has mailed. */
  function ResultPath(sent: bool): string {
    FeedbackPage + if sent then SubmittedQuery else NotSentQuery
  }

  /**
   * submit_feedback: a failed nonce ends the request; a form missing a
   * required field redirects with error=1 and mails nothing; a rating whose
   * intval is negative makes str_repeat throw before any mail; otherwise the
   * feedback is mailed, the confirmation follows only if that was accepted,
   * and the redirect says which happened.
   */
  method SubmitFeedback(mailer: Mailer, nonceValid: bool, post: map<string, string>, host: Host,
                        site: Site, adminUrl: string) returns (exit: Exit)
    modifies mailer
    ensures var form := ReadForm(post, host);
      && (!nonceValid ==> exit == NonceFailure && mailer.sent == old(mailer.sent))
      && (nonceValid && !Filled(form) ==>
            exit == Redirect(adminUrl + FeedbackPage + MissingFieldsQuery) && mailer.sent == old(mailer.sent))
      && (nonceValid && Filled(form) && RatingLabel(form.rating, host.intval).None? ==>
            exit == FatalError && mailer.sent == old(mailer.sent))
      && (nonceValid && Filled(form) && RatingLabel(form.rating, host.intval).Some? ==>
            var mails := Deliveries(form, site, RatingLabel(form.rating, host.intval).value, mailer.accepts);
            && mailer.sent == old(mailer.sent) + mails
            && exit == Redirect(adminUrl + ResultPath(mailer.accepts(mails[0]))))
  {
    if !nonceValid {
      return NonceFailure;
    }
    var form := ReadForm(post, host);
    if !Filled(form) {
      return Redirect(adminUrl + FeedbackPage + MissingFieldsQuery);
    }
    var ratingLabel := RatingLabel(form.rating, host.intval);
    if ratingLabel.None? {
      return FatalError;
    }
    var sent := mailer.Send(AdminMail(form, site, ratingLabel.value));
    if sent {
      var _ := mailer.Send(ConfirmationMail(form, ratingLabel.value));
    }
    exit := Redirect(adminUrl + ResultPath(sent));
  }
}
