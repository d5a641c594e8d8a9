/** The e-mail-domain rule of the Microsoft sign-in (`OnCreatingTicket` in
    Program.cs): a ticket is refused unless the principal's first e-mail claim
    ends in "@rioave.com.br", compared ordinally with ASCII case ignored. */
module Login {
  import opened Entities

  const DominioPermitido: string := "@rioave.com.br"
  const MensagemDeFalha: string := "Acesso permitido apenas para contas @rioave.com.br"

  /** `ClaimTypes.Email`. */
  const TipoEmail: string := "http://schemas.xmlsoap.org/ws/2005/05/identity/claims/emailaddress"

  /** A claim of the signed-in principal: its type and its value. */
  datatype Claim = Claim(tipo: string, valor: string)

  ghost predicate Letra(c: char) {
    'a' <= c <= 'z' || 'A' <= c <= 'Z'
  }

  /** The upper-case form an ordinal ignore-case comparison uses, on ASCII. */
  function UpperAscii(c: char): (u: char)
    ensures Letra(u) <==> Letra(c)
    ensures Letra(c) ==> 'A' <= u <= 'Z' && (u == c || u as int + 32 == c as int)
    ensures !Letra(c) ==> u == c
  {
    if 'a' <= c <= 'z' then (c as int - 32) as char else c
  }

  /** Upper-casing twice is upper-casing once. */
  lemma UpperAsciiIdempotente(c: char)
    ensures UpperAscii(UpperAscii(c)) == UpperAscii(c)
  {
  }

  /** s with every ASCII letter upper-cased. */
  function Maiusculas(s: string): (u: string)
    ensures |u| == |s|
    ensures forall i :: 0 <= i < |s| ==> u[i] == UpperAscii(s[i])
  {
    seq(|s|, i requires 0 <= i < |s| => UpperAscii(s[i]))
  }

  /** a and b are equal under `StringComparison.OrdinalIgnoreCase`. */
  predicate IgualIgnorandoCaixa(a: string, b: string) {
    Maiusculas(a) == Maiusculas(b)
  }

  /** `s.EndsWith(sufixo, StringComparison.OrdinalIgnoreCase)`. */
  predicate TerminaComIgnorandoCaixa(s: string, sufixo: string) {
    |sufixo| <= |s| && IgualIgnorandoCaixa(s[|s| - |sufixo|..], sufixo)
  }

  /** The accept side of the guard: the claim is present, non-empty and ends in the domain. */
  function LoginPermitido(email: Option<string>): (ok: bool)
    ensures ok ==> email.Some? && |email.value| >= |DominioPermitido|
  {
    email.Some? && email.value != [] && TerminaComIgnorandoCaixa(email.value, DominioPermitido)
  }

  /** An address is accepted exactly when it is some local part followed by a
      spelling of the domain that differs at most in ASCII letter case. */
  lemma {:induction false} PermitidoSeTerminaNoDominio(email: Option<string>)
    ensures LoginPermitido(email) <==>
              email.Some? && exists n :: 0 <= n <= |email.value| && IgualIgnorandoCaixa(email.value[n..], DominioPermitido)
  {
    if email.Some? {
      var s := email.value;
      if exists n :: 0 <= n <= |s| && IgualIgnorandoCaixa(s[n..], DominioPermitido) {
        var n :| 0 <= n <= |s| && IgualIgnorandoCaixa(s[n..], DominioPermitido);
        assert |s[n..]| == |DominioPermitido|;
        assert s != [];
      }
    }
  }

  /** Any local part followed by the domain in any ASCII letter case is accepted. */
  lemma {:induction false} DominioEmQualquerCaixa(local: string, dominio: string)
    requires IgualIgnorandoCaixa(dominio, DominioPermitido)
    ensures LoginPermitido(Some(local + dominio))
  {
    var s := local + dominio;
    assert |dominio| == |DominioPermitido|;
    assert s[|s| - |DominioPermitido|..] == dominio;
  }

  /** A missing or empty claim is refused. */
  lemma SemEmailRecusado()
    ensures !LoginPermitido(None)
    ensures !LoginPermitido(Some(""))
  {
  }

  /** The bare domain is accepted. */
  lemma SoODominioAceito()
    ensures LoginPermitido(Some("@rioave.com.br"))
  {
    DominioEmQualquerCaixa("", DominioPermitido);
  }

  /** A mixed-case spelling of the domain is accepted. */
  lemma CaixaMistaAceita()
    ensures LoginPermitido(Some("Ana.Souza@RioAve.COM.br"))
  {
    var misto := "@RioAve.COM.br";
    assert IgualIgnorandoCaixa(misto, DominioPermitido) by {
      assert UpperAscii('R') == UpperAscii('r') && UpperAscii('A') == UpperAscii('a');
      assert UpperAscii('C') == UpperAscii('c') && UpperAscii('O') == UpperAscii('o');
      assert UpperAscii('M') == UpperAscii('m');
    }
    assert "Ana.Souza@RioAve.COM.br" == "Ana.Souza" + misto;
    DominioEmQualquerCaixa("Ana.Souza", misto);
  }

  /** Look-alike addresses are refused: a domain followed by more text, a dot
      in place of the at sign, and the domain without its at sign. */
  lemma SufixosParecidos()
    ensures !LoginPermitido(Some("x@rioave.com.br.evil"))
    ensures !LoginPermitido(Some("x.rioave.com.br"))
    ensures !LoginPermitido(Some("rioave.com.br"))
  {
    var s := "x@rioave.com.br.evil";
    assert UpperAscii(s[|s| - 1]) != UpperAscii(DominioPermitido[|DominioPermitido| - 1]);
    var t := "x.rioave.com.br";
    assert UpperAscii(t[|t| - |DominioPermitido|]) != UpperAscii(DominioPermitido[0]);
  }

  /** `FindFirst(type)?.Value`: the value of the first claim whose type equals
      `tipo` ignoring case, as `ClaimsIdentity.FindFirst` compares types. */
  function PrimeiroValor(claims: seq<Claim>, tipo: string): (r: Option<string>)
    ensures r.None? <==> forall c :: c in claims ==> !IgualIgnorandoCaixa(c.tipo, tipo)
    ensures r.Some? ==> exists c :: c in claims && IgualIgnorandoCaixa(c.tipo, tipo) && c.valor == r.value
  {
    if claims == [] then None
    else if IgualIgnorandoCaixa(claims[0].tipo, tipo) then Some(claims[0].valor)
    else PrimeiroValor(claims[1..], tipo)
  }

  /** The value found is that of the first claim of the type: no claim before it
      has that type, in any letter case. */
  lemma {:induction false} PrimeiroValorEOPrimeiro(claims: seq<Claim>, tipo: string)
    requires PrimeiroValor(claims, tipo).Some?
    ensures exists i :: 0 <= i < |claims| && IgualIgnorandoCaixa(claims[i].tipo, tipo)
                        && claims[i].valor == PrimeiroValor(claims, tipo).value
                        && forall j :: 0 <= j < i ==> !IgualIgnorandoCaixa(claims[j].tipo, tipo)
  {
    if !IgualIgnorandoCaixa(claims[0].tipo, tipo) {
      var resto := claims[1..];
      assert PrimeiroValor(claims, tipo) == PrimeiroValor(resto, tipo);
      PrimeiroValorEOPrimeiro(resto, tipo);
      var i :| 0 <= i < |resto| && IgualIgnorandoCaixa(resto[i].tipo, tipo)
               && resto[i].valor == PrimeiroValor(resto, tipo).value
               && forall j :: 0 <= j < i ==> !IgualIgnorandoCaixa(resto[j].tipo, tipo);
      assert claims[i + 1] == resto[i];
      forall j | 0 <= j < i + 1 ensures !IgualIgnorandoCaixa(claims[j].tipo, tipo) {
        if j > 0 {
          assert claims[j] == resto[j - 1];
        }
      }
    }
  }

  /** `context.Principal?.FindFirst(ClaimTypes.Email)?.Value`; a missing
      principal is `None`. */
  function EmailDoPrincipal(principal: Option<seq<Claim>>): (email: Option<string>)
    ensures principal.None? ==> email.None?
    ensures principal.Some? ==> email == PrimeiroValor(principal.value, TipoEmail)
  {
    if principal.None? then None else PrimeiroValor(principal.value, TipoEmail)
  }

  /** `OnCreatingTicket`: the failure it records with `context.Fail`, if any. */
  function FalhaDoTicket(principal: Option<seq<Claim>>): (falha: Option<string>)
    ensures falha.Some? <==> !LoginPermitido(EmailDoPrincipal(principal))
    ensures falha.Some? ==> falha.value == MensagemDeFalha
  {
    if !LoginPermitido(EmailDoPrincipal(principal)) then Some(MensagemDeFalha) else None
  }

  /** The decision depends on nothing but the e-mail claim: principals with
      the same first e-mail claim get the same outcome. */
  lemma SoOEmailDecide(p: Option<seq<Claim>>, q: Option<seq<Claim>>)
    requires EmailDoPrincipal(p) == EmailDoPrincipal(q)
    ensures FalhaDoTicket(p) == FalhaDoTicket(q)
  {
  }

  /** Only the first e-mail claim is read: a later claim in the domain does not
      rescue a principal whose first one is elsewhere. */
  lemma {:induction false} SoOPrimeiroEmailConta()
    ensures FalhaDoTicket(Some([Claim(TipoEmail, "ana.souza@gmail.com"), Claim(TipoEmail, "ana@rioave.com.br")])) == Some(MensagemDeFalha)
  {
    var a := [Claim(TipoEmail, "ana.souza@gmail.com"), Claim(TipoEmail, "ana@rioave.com.br")];
    assert EmailDoPrincipal(Some(a)) == Some("ana.souza@gmail.com");
    var s := "ana.souza@gmail.com";
    assert UpperAscii(s[|s| - |DominioPermitido|]) != UpperAscii(DominioPermitido[0]);
  }

  /** Claims of other types are passed over. */
  lemma {:induction false} OutrosClaimsIgnorados(outro: Claim)
    requires !IgualIgnorandoCaixa(outro.tipo, TipoEmail)
    ensures FalhaDoTicket(Some([outro, Claim(TipoEmail, "ana@rioave.com.br")])) == None
  {
    var b := [outro, Claim(TipoEmail, "ana@rioave.com.br")];
    assert b[1..] == [Claim(TipoEmail, "ana@rioave.com.br")];
    assert EmailDoPrincipal(Some(b)) == Some("ana@rioave.com.br");
    assert "ana@rioave.com.br" == "ana" + DominioPermitido;
    DominioEmQualquerCaixa("ana", DominioPermitido);
  }

  /** A claim whose type is the e-mail type in another letter case is the
      e-mail claim: when it comes first and lies outside the domain, a later
      in-domain claim does not rescue it. */
  lemma {:induction false} TipoEmOutraCaixaConta(tipo: string)
    requires IgualIgnorandoCaixa(tipo, TipoEmail)
    ensures FalhaDoTicket(Some([Claim(tipo, "eve@gmail.com"), Claim(TipoEmail, "ana@rioave.com.br")])) == Some(MensagemDeFalha)
  {
    var a := [Claim(tipo, "eve@gmail.com"), Claim(TipoEmail, "ana@rioave.com.br")];
    assert EmailDoPrincipal(Some(a)) == Some("eve@gmail.com");
  }
}
