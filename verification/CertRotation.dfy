// The metadata POST with certificate rotation of uploadutils/mtls_upload.c, in the
// build that keeps the selector after a successful fetch (L2UPLOADENABLED).
module CertRotation {
  import opened Common

  const FILE_SCHEME := "file://"
  const CERT_NAME_SIZE: nat := 64
  const CERT_TYPE_SIZE: nat := 16
  const KEY_PAS_SIZE: nat := 65
  const ENGINE_SIZE: nat := 32

  // What rdkcertselector_getCert answers; a missing string is a NULL pointer.
  datatype Offer = Offer(ok: bool, certUri: Option<string>, certPass: Option<string>, engine: Option<string>)

  datatype Credential = Credential(certName: string, certType: string, keyPas: string, engine: string)

  datatype Post = Post(curl: int, http: int)

  // How the servers behave: the answer to the k-th POST, and whether the selector asks
  // for another certificate after it.
  datatype World = World(answer: nat -> Post, tryAnother: nat -> bool)

  // ------------------------------------------------------------ specification

  predicate Usable(o: Offer) {
    o.ok && o.certUri.Some? && o.certPass.Some?
  }

  // strncpy into a field, terminator forced.
  function Fit(s: string, size: nat): (r: string)
    requires size > 0
    ensures r <= s && |r| < size
  {
    if |s| < size then s else s[..size - 1]
  }

  function PathOf(uri: string): string {
    if FILE_SCHEME <= uri then uri[|FILE_SCHEME|..] else uri
  }

  function CredentialOf(o: Offer): Credential
    requires Usable(o)
  {
    Credential(Fit(PathOf(o.certUri.value), CERT_NAME_SIZE), Fit("P12", CERT_TYPE_SIZE),
               Fit(o.certPass.value, KEY_PAS_SIZE),
               if o.engine.Some? then Fit(o.engine.value, ENGINE_SIZE) else "")
  }

  predicate Success(p: Post) {
    p.curl == 0 && 200 <= p.http < 300
  }

  // A whole call: the return value, the credential handed out, the reported HTTP code,
  // how many POSTs and fetches were made, and the status that was recorded.
  datatype Outcome = Outcome(
    ret: int, secOut: Option<Credential>, http: int, posts: nat, fetches: nat, status: Option<Post>)

  // The rest of a call after k POSTs, the last of which reported http.
  function Rotate(offers: seq<Offer>, k: nat, http: int, w: World): Outcome
    decreases |offers|
  {
    if offers == [] || !Usable(offers[0]) then Outcome(-1, None, http, k, k + 1, None)
    else
      var p := w.answer(k);
      if Success(p) then Outcome(0, Some(CredentialOf(offers[0])), p.http, k + 1, k + 1, Some(p))
      else if w.tryAnother(k) then Rotate(offers[1..], k + 1, p.http, w)
      else Outcome(-1, None, p.http, k + 1, k + 1, Some(p))
  }

  // ----------------------------------------------------------------- the code

  class MtlsAuth {
    var certName: string
    var certType: string
    var keyPas: string
    var engine: string

    constructor ()
      ensures View() == Credential("", "", "", "")
    {
      certName, certType, keyPas, engine := "", "", "", "";
    }

    ghost function View(): Credential
      reads this
    {
      Credential(certName, certType, keyPas, engine)
    }

    // memcpy from another structure.
    method CopyFrom(other: MtlsAuth)
      modifies this
      ensures View() == old(other.View())
    {
      certName, certType, keyPas, engine := other.certName, other.certType, other.keyPas, other.engine;
    }
  }

  // The certificate selector: what it still has to offer.
  class CertSelector {
    var offers: seq<Offer>
    var freed: bool

    method GetCert() returns (o: Offer)
      modifies this
      ensures o == if old(offers) == [] then Offer(false, None, None, None) else old(offers)[0]
      ensures offers == (if old(offers) == [] then [] else old(offers)[1..]) && freed == old(freed)
    {
      if offers == [] {
        return Offer(false, None, None, None);
      }
      o := offers[0];
      offers := offers[1..];
    }

    method Free()
      modifies this
      ensures freed && offers == old(offers)
    {
      freed := true;
    }
  }

  class LongCell {
    var value: int
  }

  class UploadStatus {
    var http: int
    var curl: int
  }

  // getCertificateForUpload.
  method GetCertificateForUpload(sec: MtlsAuth?, selector: CertSelector?) returns (fetched: bool)
    modifies sec, selector
    ensures sec == null || selector == null ==> !fetched
    ensures sec == null && selector != null ==>
      selector.offers == old(selector.offers) && selector.freed == old(selector.freed)
    ensures sec != null && selector == null ==> sec.View() == old(sec.View())
    ensures sec != null && selector != null ==>
      && (fetched <==> old(selector.offers) != [] && Usable(old(selector.offers)[0]))
      && sec.View() == (if fetched then CredentialOf(old(selector.offers)[0]) else old(sec.View()))
      && selector.offers == (if old(selector.offers) == [] then [] else old(selector.offers)[1..])
      && selector.freed == (old(selector.freed) || !fetched)
  {
    if sec == null || selector == null {
      return false;
    }
    var cert := selector.GetCert();
    if !cert.ok || cert.certUri == None || cert.certPass == None {
      selector.Free();
      return false;
    }
    var certFile := cert.certUri.value;
    if FILE_SCHEME <= certFile {
      certFile := certFile[|FILE_SCHEME|..];
    }
    sec.certName := Fit(certFile, CERT_NAME_SIZE);
    sec.keyPas := Fit(cert.certPass.value, KEY_PAS_SIZE);
    match cert.engine {
      case None => sec.engine := "";
      case Some(engine) => sec.engine := Fit(engine, ENGINE_SIZE);
    }
    sec.certType := Fit("P12", CERT_TYPE_SIZE);
    return true;
  }

  // performMetadataPostWithCertRotation; others says whether the remaining pointer
  // arguments are all there.
  method PerformMetadataPost(others: bool, selector: CertSelector?, secOut: MtlsAuth?, httpCodeOut: LongCell?,
                             status: UploadStatus, w: World)
    returns (ret: int, ghost posts: nat, ghost fetches: nat)
    modifies selector, secOut, httpCodeOut, status
    ensures !others || selector == null || secOut == null || httpCodeOut == null ==>
      && ret == -1 && posts == 0 && fetches == 0
      && (secOut != null ==> secOut.View() == old(secOut.View()))
      && (httpCodeOut != null ==> httpCodeOut.value == old(httpCodeOut.value))
      && status.http == old(status.http) && status.curl == old(status.curl)
    ensures others && selector != null && secOut != null && httpCodeOut != null ==>
      var o := Rotate(old(selector.offers), 0, 0, w);
      && ret == o.ret && posts == o.posts && fetches == o.fetches
      && httpCodeOut.value == o.http
      && secOut.View() == (if o.secOut.Some? then o.secOut.value else old(secOut.View()))
      && (selector.freed <==> old(selector.freed) || o.fetches > o.posts)
      && (match o.status
          case Some(p) => status.http == p.http && status.curl == p.curl
          case None => status.http == old(status.http) && status.curl == old(status.curl))
  {
    posts, fetches := 0, 0;
    if !others || selector == null || secOut == null || httpCodeOut == null {
      return -1, 0, 0;
    }
    httpCodeOut.value := 0;
    var k := 0;
    var again := true;
    var httpCode, curlRetCode := 0, -1;
    while again
      invariant posts == fetches == k
      invariant secOut.View() == old(secOut.View()) && selector.freed == old(selector.freed)
      invariant status.http == old(status.http) && status.curl == old(status.curl)
      invariant again ==> Rotate(old(selector.offers), 0, 0, w) == Rotate(selector.offers, k, httpCodeOut.value, w)
      invariant !again ==>
        Rotate(old(selector.offers), 0, 0, w) ==
        Outcome(-1, None, httpCodeOut.value, k, k, Some(Post(curlRetCode, httpCode)))
      decreases |selector.offers|, again
    {
      ghost var offers := selector.offers;
      var sec := new MtlsAuth();
      httpCode := 0;
      fetches := fetches + 1;
      var fetched := GetCertificateForUpload(sec, selector);
      if !fetched {
        return -1, posts, fetches;
      }
      var post := w.answer(k);
      curlRetCode, httpCode := post.curl, post.http;
      posts := posts + 1;
      httpCodeOut.value := httpCode;
      if curlRetCode == 0 && httpCode >= 200 && httpCode < 300 {
        secOut.CopyFrom(sec);
        status.http, status.curl := httpCode, curlRetCode;
        return 0, posts, fetches;
      }
      again := w.tryAnother(k);
      k := k + 1;
    }
    status.http, status.curl := httpCode, curlRetCode;
    return -1, posts, fetches;
  }

  // --------------------------------------------------------------- properties

  // A file:// in front of the certificate path makes no difference, and every text fits
  // its field with a terminator.
  lemma SchemeIsOptional(o: Offer, path: string)
    requires Usable(o) && o.certUri.value == FILE_SCHEME + path && !(FILE_SCHEME <= path)
    ensures CredentialOf(o) == CredentialOf(o.(certUri := Some(path)))
    ensures var c := CredentialOf(o);
      |c.certName| < 64 && |c.certType| < 16 && |c.keyPas| < 65 && |c.engine| < 32
  {
  }

  // The first n POSTs all failed and the selector wanted another one each time.
  predicate AllRetried(w: World, from: nat, n: nat) {
    forall j :: from <= j < n ==> !Success(w.answer(j)) && w.tryAnother(j)
  }

  // The call comes to its end with n POSTs: no certificate is left for the next one,
  // or the last one succeeded or was not to be repeated.
  predicate EndsAfter(offers: seq<Offer>, w: World, n: nat) {
    && n <= |offers| && (forall j :: 0 <= j < n ==> Usable(offers[j]))
    && ((AllRetried(w, 0, n) && (n == |offers| || !Usable(offers[n])))
        || (n > 0 && AllRetried(w, 0, n - 1) && (Success(w.answer(n - 1)) || !w.tryAnother(n - 1))))
  }

  lemma {:induction false} RotateAfter(offers: seq<Offer>, k: nat, http: int, w: World)
    requires k <= |offers| && AllRetried(w, 0, k) && forall j :: 0 <= j < k ==> Usable(offers[j])
    ensures var o := Rotate(offers[k..], k, http, w);
      && EndsAfter(offers, w, o.posts) && k <= o.posts
      && o.fetches == o.posts + (if AllRetried(w, 0, o.posts) then 1 else 0)
      && o.http == (if o.posts == k then http else w.answer(o.posts - 1).http)
      && (o.ret == 0 || o.ret == -1)
      && (o.ret == 0 <==> o.posts > 0 && Success(w.answer(o.posts - 1)))
      && o.secOut == (if o.ret == 0 then Some(CredentialOf(offers[o.posts - 1])) else None)
      && o.status == (if o.fetches > o.posts then None else Some(w.answer(o.posts - 1)))
    decreases |offers| - k
  {
    if k < |offers| && Usable(offers[k]) && !Success(w.answer(k)) && w.tryAnother(k) {
      assert offers[k..][1..] == offers[k + 1..];
      RotateAfter(offers, k + 1, w.answer(k).http, w);
    }
  }

  // Every run of the rotation: one fetch for each POST and at most one that fails; 0
  // exactly when the last POST succeeded, and then the credential of that POST.
  lemma RotationIsRight(offers: seq<Offer>, w: World)
    ensures var o := Rotate(offers, 0, 0, w);
      && EndsAfter(offers, w, o.posts)
      && o.posts <= o.fetches <= o.posts + 1 && o.posts <= |offers|
      && (o.fetches == o.posts + 1 <==> AllRetried(w, 0, o.posts))
      && o.http == (if o.posts == 0 then 0 else w.answer(o.posts - 1).http)
      && (o.ret == 0 || o.ret == -1)
      && (o.ret == 0 <==> o.posts > 0 && Success(w.answer(o.posts - 1)))
      && o.secOut == (if o.ret == 0 then Some(CredentialOf(offers[o.posts - 1])) else None)
      && o.status == (if o.fetches > o.posts then None else Some(w.answer(o.posts - 1)))
  {
    assert offers[0..] == offers;
    RotateAfter(offers, 0, 0, w);
  }

  // There is only one place where a run can end.
  lemma EndIsUnique(offers: seq<Offer>, w: World, n: nat)
    ensures EndsAfter(offers, w, n) <==> Rotate(offers, 0, 0, w).posts == n
  {
    RotationIsRight(offers, w);
    var m := Rotate(offers, 0, 0, w).posts;
    if EndsAfter(offers, w, n) {
      FirstEndIsLast(offers, w, m, n);
      FirstEndIsLast(offers, w, n, m);
    }
  }

  lemma FirstEndIsLast(offers: seq<Offer>, w: World, m: nat, n: nat)
    requires EndsAfter(offers, w, m) && EndsAfter(offers, w, n)
    ensures m >= n
  {
  }

  // Success is possible exactly when some certificate before the first unusable one
  // succeeds, and every one before it failed and was rotated.
  lemma SucceedsIff(offers: seq<Offer>, w: World)
    ensures Rotate(offers, 0, 0, w).ret == 0 <==>
      exists n :: 0 <= n < |offers| && Success(w.answer(n)) && AllRetried(w, 0, n) &&
                  forall j :: 0 <= j <= n ==> Usable(offers[j])
  {
    RotationIsRight(offers, w);
    var o := Rotate(offers, 0, 0, w);
    if o.ret == 0 {
      var n := o.posts - 1;
      assert AllRetried(w, 0, n);
    }
    if n :| 0 <= n < |offers| && Success(w.answer(n)) && AllRetried(w, 0, n) &&
            forall j :: 0 <= j <= n ==> Usable(offers[j]) {
      EndIsUnique(offers, w, n + 1);
    }
  }

  // One offer and one answer: the call succeeds exactly when the selector says so and
  // gives a path and a password, with or without an engine, and the answer is any code
  // from 200 to 299 without an error of curl.
  lemma OneOfferIff(o: Offer, post: Post)
    ensures Rotate([o], 0, 0, World(_ => post, _ => false)).ret == 0 <==>
            && o.ok && o.certUri != None && o.certPass != None
            && post.curl == 0 && 200 <= post.http <= 299
  {
  }

  // The credential handed out is that of the last certificate fetched: its path without a
  // leading "file://", its password and its engine, each in as many characters as its
  // field holds, and the type P12.
  lemma CredentialHandedOut(offers: seq<Offer>, w: World)
    ensures var r := Rotate(offers, 0, 0, w);
      (r.ret == 0 <==> r.secOut.Some?) &&
      (r.ret == 0 ==>
         && 0 < r.posts <= |offers|
         && var o, c := offers[r.posts - 1], r.secOut.value;
         && o.ok && o.certUri.Some? && o.certPass.Some?
         && var uri, pass := o.certUri.value, o.certPass.value;
         && var path := if |uri| >= 7 && uri[..7] == "file://" then uri[7..] else uri;
         && c.certName == (if |path| <= 63 then path else path[..63])
         && c.keyPas == (if |pass| <= 64 then pass else pass[..64])
         && c.certType == "P12"
         && c.engine == match o.engine
                        case None => ""
                        case Some(engine) => if |engine| <= 31 then engine else engine[..31])
  {
    RotationIsRight(offers, w);
    var r := Rotate(offers, 0, 0, w);
    if r.ret == 0 {
      var o := offers[r.posts - 1];
      assert Usable(o);
      assert "file://" <= o.certUri.value <==> |o.certUri.value| >= 7 && o.certUri.value[..7] == "file://";
    }
  }
}
