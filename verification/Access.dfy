/** Who gets in: the two guards together, and the header they read. */
module Access {
  import opened Wrappers
  import opened Entities
  import opened RpcErrors
  import opened Gateway
  import opened Cinema
  import Identity
  import Verdicts
  import A = AuthService

  /** The token of the header is one of ours and has not expired. */
  predicate Presents(issued: map<string, A.Claims>, header: Option<string>, now: int) {
    var token := ExtractBearerToken(header);
    token.Some? && token.value in issued && now < issued[token.value].exp
  }

  /** The exception is answered with this status, message and label. */
  predicate Refuses<T>(guarded: Guarded<T>, status: int, message: string, title: string) {
    guarded.Deny? && AnswerException(guarded.exception) == Answer(status, Problem(Text(message), Text(title)))
  }

  predicate IsPublic(call: HttpCall) {
    call.PostRegister? || call.PostLogin? || call.GetMovies? || call.GetMovie?
  }

  predicate ForAdministrators(call: HttpCall) {
    call.PostMovie? || call.PatchMovie? || call.DeleteMovie?
  }

  /** Four routes are open to everybody. The others let in exactly the holders of a live token, three of them of an
      administrator's, as whom the token names; without a live token the answer is 401, without the role 403. */
  lemma GuardsDecide(issued: map<string, A.Claims>, header: Option<string>, now: int, call: HttpCall)
    ensures var guarded := Guards(issued, header, now, call);
            if IsPublic(call) then guarded == Pass(None)
            else if ExtractBearerToken(header).None? then Refuses(guarded, 401, "Missing bearer token", "Unauthorized")
            else if !Presents(issued, header, now) then
              Refuses(guarded, 401, "Invalid or expired token", "Unauthorized")
            else
              var claims := issued[ExtractBearerToken(header).value];
              if ForAdministrators(call) && claims.role != ADMIN then
                Refuses(guarded, 403, "Insufficient permissions", "Forbidden")
              else guarded == Pass(Some(AuthUser(claims.sub, claims.email, claims.role)))
  {
    hide ExtractBearerToken;
  }

  /** Whoever the guards let in is refused with 400 for a body that is not valid, and otherwise admitted. */
  lemma AdmissionDecides(s: System, header: Option<string>, now: int, call: HttpCall)
    ensures var admitted := Admit(s, header, now, call);
            if IsPublic(call) then
              if ValidBody(call) then admitted == Pass(None) else IsBadRequest(admitted)
            else if ExtractBearerToken(header).None? then
              Refuses(admitted, 401, "Missing bearer token", "Unauthorized")
            else if !Presents(s.auth.issued, header, now) then
              Refuses(admitted, 401, "Invalid or expired token", "Unauthorized")
            else
              var claims := s.auth.issued[ExtractBearerToken(header).value];
              if ForAdministrators(call) && claims.role != ADMIN then
                Refuses(admitted, 403, "Insufficient permissions", "Forbidden")
              else if ValidBody(call) then admitted == Pass(Some(AuthUser(claims.sub, claims.email, claims.role)))
              else IsBadRequest(admitted)
  {
    GuardsDecide(s.auth.issued, header, now, call);
    hide ExtractBearerToken, ValidBody, Guards;
  }

  /** The id in the path, if there is one, is positive; the gateway does not look at it. */
  predicate PathIsPositive(call: HttpCall) {
    match call
    case GetMovie(id) => id > 0
    case PatchMovie(id, _) => id > 0
    case DeleteMovie(id) => id > 0
    case GetOrder(id) => id > 0
    case PatchOrderCancel(id) => id > 0
    case _ => true
  }

  /** The gateway lets in just the bodies that the service behind the route accepts, so that a request it has let in is
      refused by the service's own pipe only for the id in its path. */
  lemma GatewayChecksWhatServicesCheck(call: HttpCall, user: Option<AuthUser>)
    requires NeedsToken(call) ==> user.Some? && user.value.id > 0
    ensures ValidBody(call) && PathIsPositive(call)
            <==> match Route(call, user)
                 case ToAuth(authCall) => !Verdicts.InvalidAuth(authCall)
                 case ToCatalog(catalogCall) => !Verdicts.InvalidCatalog(catalogCall)
                 case ToOrders(orderCall) => !Verdicts.InvalidOrder(orderCall)
  {
  }

  predicate IsBadRequest<T>(guarded: Guarded<T>) {
    guarded.Deny? && AnswerException(guarded.exception).status == 400
  }

  /** An arriving request is answered at once exactly if it is not let in, with the status of the refusal; otherwise it
      waits for a handler that has not begun. */
  lemma ArrivalDecides(s: System, a: Action)
    requires a.Arrive? && CanArrive(s, a)
    ensures var admitted := Admit(s, a.header, a.now, a.call);
            var n := Next(s, a);
            && a.request in n.requests && n.requests[a.request].call == a.call
            && if admitted.Deny? then n.requests[a.request].answer == Some(AnswerException(admitted.exception))
               else
                 && n.requests[a.request].answer == None && n.requests[a.request].user == admitted.value
                 && n.requests[a.request].child in {AuthChild(a.task), CatalogChild(a.task), OrderChild(a.task)}
  {
    hide Admit, Route;
    AdmitIdentifies(s, a.header, a.now, a.call);
  }

  /** Words joined by single spaces. */
  function Join(words: seq<string>): string {
    if words == [] then "" else if |words| == 1 then words[0] else words[0] + " " + Join(words[1..])
  }

  /** Splitting takes a header apart without losing anything, into words without spaces. */
  lemma {:induction false} SplitUndoesJoin(s: string)
    ensures Join(Split(s)) == s && forall word :: word in Split(s) ==> ' ' !in word
  {
    if s != "" {
      var rest := Split(s[1..]);
      SplitUndoesJoin(s[1..]);
      assert s == [s[0]] + s[1..];
      if s[0] == ' ' {
        assert ([""] + rest)[1..] == rest;
      } else {
        var words := [[s[0]] + rest[0]] + rest[1..];
        assert words[1..] == rest[1..];
        assert rest[0] in rest;
        assert forall word :: word in rest[1..] ==> word in rest;
      }
    }
  }

  /** The token is the second word of a header that begins with "Bearer ", whatever follows. */
  predicate Carries(header: string, token: string, rest: string) {
    token != "" && ' ' !in token && (header == "Bearer " + token || header == "Bearer " + token + " " + rest)
  }

  lemma BearerTokenIsSecondWord(header: string, token: string)
    ensures ExtractBearerToken(Some(header)) == Some(token) <==> exists rest :: Carries(header, token, rest)
  {
    var words := Split(header);
    if ExtractBearerToken(Some(header)) == Some(token) {
      SplitUndoesJoin(header);
      assert words[1] in words;
      var tail := words[1..];
      assert Join(words) == "Bearer" + " " + Join(tail);
      assert Carries(header, token, Join(tail[1..])) by {
        assert "Bearer" + " " == "Bearer ";
        if |tail| > 1 {
          assert header == "Bearer " + (token + " " + Join(tail[1..]));
          assert header == "Bearer " + token + " " + Join(tail[1..]);
        }
      }
    }
    if rest :| Carries(header, token, rest) {
      FirstWords(header, token, rest);
    }
  }

  lemma FirstWords(header: string, token: string, rest: string)
    requires Carries(header, token, rest)
    ensures ExtractBearerToken(Some(header)) == Some(token)
  {
    if header == "Bearer " + token {
      Identity.BearerToken(token);
    } else {
      assert header == "Bearer" + " " + (token + " " + rest);
      Identity.SplitAfterSpace("Bearer", token + " " + rest);
      Identity.SplitAfterSpace(token, rest);
    }
  }
}
