/** Brazilian licence plates (src/utils/validation.ts): the validator, which
    accepts the legacy `ABC-1234` form (hyphen optional) and the Mercosul
    `ABC1D23` form after removing whitespace and upper-casing, and the
    display formatter. Upper-casing is ASCII only. */
module Validation {
  import opened Types
  import opened Texto

  const ErroVazia: string := "Placa n\U{E3}o pode estar vazia"
  const ErroFormato: string := "Formato inv\U{E1}lido. Use ABC-1234 ou ABC1D23"

  /** The validator's answer: valid, or invalid with an error message. */
  datatype Resultado = Resultado(valida: bool, erro: Option<string>)

  predicate NaoEspaco(c: char) { !IsSpace(c) }

  /** An upper-case ASCII letter or a decimal digit. */
  predicate Alfanumerico(c: char) { IsUpper(c) || IsDigit(c) }

  // ---------------------------------------------------------------------------
  // The two patterns

  predicate TresLetras(s: string) {
    |s| >= 3 && IsUpper(s[0]) && IsUpper(s[1]) && IsUpper(s[2])
  }

  /** The legacy pattern: three letters, an optional hyphen, four digits. */
  predicate PadraoAntigo(s: string) {
    && TresLetras(s)
    && (|| (|s| == 7 && AllDigits(s[3..]))
        || (|s| == 8 && s[3] == '-' && AllDigits(s[4..])))
  }

  /** The Mercosul pattern: three letters, a digit, a letter, two digits. */
  predicate PadraoMercosul(s: string) {
    |s| == 7 && TresLetras(s) && IsDigit(s[3]) && IsUpper(s[4]) && IsDigit(s[5]) && IsDigit(s[6])
  }

  // ---------------------------------------------------------------------------
  // An independent description of the accepted plates: the shape of a string,
  // one letter per character (L letter, D digit, - hyphen, ? anything else).

  function Classe(c: char): char {
    if IsUpper(c) then 'L' else if IsDigit(c) then 'D' else if c == '-' then '-' else '?'
  }

  function Forma(s: string): (f: string)
    ensures |f| == |s| && forall i :: 0 <= i < |s| ==> f[i] == Classe(s[i])
  {
    seq(|s|, i requires 0 <= i < |s| => Classe(s[i]))
  }

  const FormasAceitas: set<string> := {"LLLDDDD", "LLL-DDDD", "LLLDLDD"}

  lemma {:induction false} PadroesSaoFormas(s: string)
    ensures PadraoAntigo(s) || PadraoMercosul(s) <==> Forma(s) in FormasAceitas
  {
    PadroesDaoFormas(s);
    FormasDaoPadroes(s);
  }

  lemma PadroesDaoFormas(s: string)
    ensures PadraoAntigo(s) && |s| == 7 ==> Forma(s) == "LLLDDDD"
    ensures PadraoAntigo(s) && |s| == 8 ==> Forma(s) == "LLL-DDDD"
    ensures PadraoMercosul(s) ==> Forma(s) == "LLLDLDD"
  {
    var f := Forma(s);
    if PadraoAntigo(s) && |s| == 7 {
      forall i | 3 <= i < 7 ensures f[i] == 'D' {
        assert IsDigit(s[3..][i - 3]);
      }
      assert f == "LLLDDDD";
    }
    if PadraoAntigo(s) && |s| == 8 {
      forall i | 4 <= i < 8 ensures f[i] == 'D' {
        assert IsDigit(s[4..][i - 4]);
      }
      assert f == "LLL-DDDD";
    }
    if PadraoMercosul(s) {
      assert f == "LLLDLDD";
    }
  }

  lemma FormasDaoPadroes(s: string)
    ensures Forma(s) in FormasAceitas ==> PadraoAntigo(s) || PadraoMercosul(s)
  {
    var f := Forma(s);
    if f == "LLLDDDD" {
      forall i | 0 <= i < |s[3..]| ensures IsDigit(s[3..][i]) {
        assert f[3 + i] == 'D';
      }
    }
    if f == "LLL-DDDD" {
      forall i | 0 <= i < |s[4..]| ensures IsDigit(s[4..][i]) {
        assert f[4 + i] == 'D';
      }
    }
    if f == "LLLDLDD" {
      assert f[3] == 'D' && f[4] == 'L' && f[5] == 'D' && f[6] == 'D';
    }
  }

  // ---------------------------------------------------------------------------
  // Validation

  /** The validator's cleaning step: every whitespace character removed, the
      rest upper-cased. */
  function Normalizar(placa: string): string {
    ToUpper(Filter(placa, NaoEspaco))
  }

  lemma {:induction false} FilterVazio(s: string, keep: char -> bool)
    ensures |Filter(s, keep)| == 0 <==> forall i :: 0 <= i < |s| ==> !keep(s[i])
  {
    if |s| > 0 {
      FilterVazio(s[1..], keep);
      assert forall i :: 1 <= i < |s| ==> s[i] == s[1..][i - 1];
    }
  }

  /** `validarPlacaBrasileira`: a whitespace-only input is rejected as empty;
      otherwise the input is valid exactly when its normalised shape is one
      of the three accepted shapes, and an error is reported exactly when it
      is not valid. */
  function ValidarPlacaBrasileira(placa: string): (r: Resultado)
    ensures r.valida <==> r.erro.None?
    ensures r.erro == Some(ErroVazia) <==> forall i :: 0 <= i < |placa| ==> IsSpace(placa[i])
    ensures r.valida <==> Forma(Normalizar(placa)) in FormasAceitas
    ensures !r.valida && r.erro != Some(ErroVazia) ==> r.erro == Some(ErroFormato)
  {
    var limpa := Normalizar(placa);
    FilterVazio(placa, NaoEspaco);
    PadroesSaoFormas(limpa);
    if |limpa| == 0 then Resultado(false, Some(ErroVazia))
    else if !PadraoAntigo(limpa) && !PadraoMercosul(limpa) then Resultado(false, Some(ErroFormato))
    else Resultado(true, None)
  }

  /** A string without whitespace or lower-case letters is already normal. */
  lemma JaNormal(s: string)
    requires forall i :: 0 <= i < |s| ==> !IsSpace(s[i]) && !IsLower(s[i])
    ensures Normalizar(s) == s
  {
    assert Filter(s, NaoEspaco) == s;
    assert forall i :: 0 <= i < |s| ==> ToUpper(s)[i] == s[i];
  }

  /** Normalising twice is normalising once. */
  lemma NormalizarIdempotente(placa: string)
    ensures Normalizar(Normalizar(placa)) == Normalizar(placa)
  {
    var f := Filter(placa, NaoEspaco);
    var n := Normalizar(placa);
    forall i | 0 <= i < |n| ensures !IsSpace(n[i]) && !IsLower(n[i]) {
      UpperCharSpace(f[i]);
    }
    JaNormal(n);
  }

  /** Validating the normalised input gives the same answer as validating
      the raw input. */
  lemma ValidarNormalizada(placa: string)
    ensures ValidarPlacaBrasileira(Normalizar(placa)) == ValidarPlacaBrasileira(placa)
  {
    NormalizarIdempotente(placa);
  }

  /** The upper-case letter's lower-case partner. */
  function Minuscula(c: char): (m: char)
    requires IsUpper(c)
    ensures IsLower(m) && UpperChar(m) == c
  {
    (c as int + 32) as char
  }

  /** `q` is `p` with some of its letters written in lower case. */
  predicate CaixaMista(p: string, q: string) {
    && |q| == |p|
    && SoPlaca(p)
    && (forall i :: 0 <= i < |p| ==> q[i] == p[i] || (IsUpper(p[i]) && q[i] == Minuscula(p[i])))
  }

  /** Normalising a plate written in mixed case gives it back in upper case. */
  lemma NormalDeCaixaMista(p: string, q: string)
    requires CaixaMista(p, q)
    ensures Normalizar(q) == p
  {
    assert forall i :: 0 <= i < |q| ==> NaoEspaco(q[i]);
    assert Filter(q, NaoEspaco) == q;
    assert forall i :: 0 <= i < |q| ==> ToUpper(q)[i] == p[i];
  }

  /** The validator does not see case. */
  lemma CaixaNaoImporta(p: string, q: string)
    requires CaixaMista(p, q)
    ensures ValidarPlacaBrasileira(q) == ValidarPlacaBrasileira(p)
  {
    NormalDeCaixaMista(p, q);
    NormalDeCaixaMista(p, p);
  }

  /** Over letters, digits and hyphens the validator is the two patterns. */
  lemma ValidarPorPadrao(p: string)
    requires |p| > 0 && SoPlaca(p)
    ensures ValidarPlacaBrasileira(p).valida <==> PadraoAntigo(p) || PadraoMercosul(p)
    ensures !ValidarPlacaBrasileira(p).valida ==> ValidarPlacaBrasileira(p).erro == Some(ErroFormato)
  {
    NormalDeCaixaMista(p, p);
  }

  /** Letters, digits and hyphens only. */
  predicate SoPlaca(p: string) {
    forall i :: 0 <= i < |p| ==> Alfanumerico(p[i]) || p[i] == '-'
  }

  lemma Abc1234()
    ensures SoPlaca("ABC1234") && PadraoAntigo("ABC1234")
  {
    assert "ABC1234"[3..] == "1234";
  }

  lemma CaixaAbc1234()
    ensures CaixaMista("ABC1234", "abc1234")
  {
  }

  /** Lower case and the optional hyphen are accepted. */
  lemma ExemploMinusculas()
    ensures ValidarPlacaBrasileira("abc1234").valida
  {
    Abc1234();
    CaixaAbc1234();
    CaixaNaoImporta("ABC1234", "abc1234");
    ValidarPorPadrao("ABC1234");
  }

  lemma AbcHifen1234()
    ensures SoPlaca("ABC-1234") && PadraoAntigo("ABC-1234")
  {
    assert "ABC-1234"[4..] == "1234";
  }

  lemma ExemploHifen()
    ensures ValidarPlacaBrasileira("ABC-1234").valida
  {
    AbcHifen1234();
    ValidarPorPadrao("ABC-1234");
  }

  /** Whitespace only is the empty-plate error. */
  lemma ExemploVazia()
    ensures ValidarPlacaBrasileira("   ") == Resultado(false, Some(ErroVazia))
  {
  }

  lemma HifenDuplo()
    ensures SoPlaca("ABC--1234") && !PadraoAntigo("ABC--1234") && !PadraoMercosul("ABC--1234")
  {
  }

  /** A doubled hyphen is a format error. */
  lemma ExemploHifenDuplo()
    ensures ValidarPlacaBrasileira("ABC--1234") == Resultado(false, Some(ErroFormato))
  {
    HifenDuplo();
    ValidarPorPadrao("ABC--1234");
  }

  // ---------------------------------------------------------------------------
  // Formatting, as written

  /** The formatter's common tail, given the cleaned string: a Mercosul plate
      is kept, six or more characters get a hyphen after the third and are
      cut to seven, anything shorter falls back to the upper-cased input. */
  function Montar(limpa: string, placa: string): string {
    if |limpa| == 7 && PadraoMercosul(limpa) then limpa
    else if |limpa| >= 6 then limpa[..3] + "-" + limpa[3..Min(7, |limpa|)]
    else ToUpper(placa)
  }

  /** `formatarPlaca`: characters outside `[A-Z0-9]` are removed BEFORE
      upper-casing, so lower-case letters are dropped and the upper-casing
      changes nothing. */
  function FormatarPlaca(placa: string): (r: string)
    ensures ToUpper(Filter(placa, Alfanumerico)) == Filter(placa, Alfanumerico)
    ensures var limpa := Filter(placa, Alfanumerico);
              |limpa| == 7 && PadraoMercosul(limpa) ==> r == limpa
    ensures var limpa := Filter(placa, Alfanumerico);
              |limpa| >= 6 && !(|limpa| == 7 && PadraoMercosul(limpa)) ==>
                |r| == Min(7, |limpa|) + 1 && r[3] == '-'
    ensures |Filter(placa, Alfanumerico)| < 6 ==> r == ToUpper(placa)
    ensures |Filter(placa, Alfanumerico)| >= 6 ==>
              Filter(r, Alfanumerico) == Filter(placa, Alfanumerico)[..Min(7, |Filter(placa, Alfanumerico)|)]
  {
    var limpa := Filter(placa, Alfanumerico);
    assert forall i :: 0 <= i < |limpa| ==> ToUpper(limpa)[i] == limpa[i];
    assert ToUpper(limpa) == limpa;
    MontarConteudo(limpa, placa);
    Montar(limpa, placa)
  }

  /** Which branch the tail takes: a seven-character Mercosul string comes
      back unchanged, any other string of six or more gets a hyphen after its
      third character and is cut to seven. From six kept characters on, the
      letters and digits of the result are the first seven kept characters,
      in order: the hyphen is the only thing added. */
  lemma MontarConteudo(limpa: string, placa: string)
    requires forall i :: 0 <= i < |limpa| ==> Alfanumerico(limpa[i])
    ensures |limpa| == 7 && PadraoMercosul(limpa) ==> Montar(limpa, placa) == limpa
    ensures |limpa| >= 6 && !(|limpa| == 7 && PadraoMercosul(limpa)) ==>
              |Montar(limpa, placa)| == Min(7, |limpa|) + 1 && Montar(limpa, placa)[3] == '-'
    ensures |limpa| >= 6 ==> Filter(Montar(limpa, placa), Alfanumerico) == limpa[..Min(7, |limpa|)]
  {
    if |limpa| < 6 {
    } else if |limpa| == 7 && PadraoMercosul(limpa) {
      assert limpa[..7] == limpa;
    } else {
      var m := Min(7, |limpa|);
      var a, b := limpa[..3], limpa[3..m];
      assert Montar(limpa, placa) == a + "-" + b;
      assert forall i :: 0 <= i < |b| ==> b[i] == limpa[i + 3];
      FiltroHifen(a, b);
      assert a + b == limpa[..m];
    }
  }

  /** Filtering drops the hyphen between two letter-and-digit strings. */
  lemma {:induction false} FiltroHifen(a: string, b: string)
    requires forall i :: 0 <= i < |a| ==> Alfanumerico(a[i])
    requires forall i :: 0 <= i < |b| ==> Alfanumerico(b[i])
    ensures Filter(a + "-" + b, Alfanumerico) == a + b
  {
    var h := Filter("-", Alfanumerico);
    assert h == "" by {
      assert !Alfanumerico('-');
      assert "-"[1..] == "";
    }
    FilterConcat(a, "-", Alfanumerico);
    FilterConcat(a + "-", b, Alfanumerico);
    assert Filter(a, Alfanumerico) == a;
    assert Filter(b, Alfanumerico) == b;
  }


  /** A legacy plate with hyphen and a Mercosul plate are left as they are. */
  lemma FormatarPlacaCanonica(placa: string)
    requires PadraoMercosul(placa) || (PadraoAntigo(placa) && |placa| == 8)
    ensures FormatarPlaca(placa) == placa
  {
    if PadraoMercosul(placa) {
      assert Filter(placa, Alfanumerico) == placa;
    } else {
      LimparHifenizada(placa);
    }
  }

  lemma LimparHifenizada(placa: string)
    requires PadraoAntigo(placa) && |placa| == 8
    ensures Filter(placa, Alfanumerico) == placa[..3] + placa[4..]
    ensures Filter(ToUpper(placa), Alfanumerico) == placa[..3] + placa[4..]
  {
    var letras, digitos := placa[..3], placa[4..];
    assert placa == letras + ([placa[3]] + digitos);
    assert Filter(letras, Alfanumerico) == letras by {
      assert forall i :: 0 <= i < 3 ==> Alfanumerico(letras[i]);
    }
    assert Filter(digitos, Alfanumerico) == digitos by {
      assert forall i :: 0 <= i < |digitos| ==> IsDigit(digitos[i]);
    }
    FilterConcat(letras, [placa[3]] + digitos, Alfanumerico);
    FilterConcat([placa[3]], digitos, Alfanumerico);
    assert Filter([placa[3]], Alfanumerico) == "";
    SemMinusculas(placa);
  }

  lemma SemMinusculas(s: string)
    requires PadraoAntigo(s) || PadraoMercosul(s)
    ensures ToUpper(s) == s
  {
    forall i | 0 <= i < |s| ensures !IsLower(s[i]) {
      if i >= 3 && PadraoAntigo(s) && !(|s| == 8 && i == 3) {
        if |s| == 7 { assert IsDigit(s[3..][i - 3]); } else { assert IsDigit(s[4..][i - 4]); }
      }
    }
    assert forall i :: 0 <= i < |s| ==> ToUpper(s)[i] == s[i];
  }

  /** A legacy plate without hyphen whose first letter is written in lower
      case is accepted by the validator, but the formatter drops that letter
      and hyphenates the rest, which the validator rejects. */
  lemma FormatarPlacaPerdeMinusculas(p: string)
    requires PadraoAntigo(p) && |p| == 7
    ensures var q := [Minuscula(p[0])] + p[1..];
            && ValidarPlacaBrasileira(q).valida
            && FormatarPlaca(q) == p[1..4] + "-" + p[4..]
            && !ValidarPlacaBrasileira(FormatarPlaca(q)).valida
  {
    var q := [Minuscula(p[0])] + p[1..];
    AntigaSemHifen(p);
    CaixaNaoImporta(p, q);
    ValidarPorPadrao(p);
    FiltroSemPrimeira(p);
    HifenizadaCurta(p);
  }

  lemma AntigaSemHifen(p: string)
    requires PadraoAntigo(p) && |p| == 7
    ensures SoPlaca(p) && CaixaMista(p, [Minuscula(p[0])] + p[1..])
    ensures forall i :: 3 <= i < 7 ==> IsDigit(p[i])
  {
    forall i | 3 <= i < 7 ensures IsDigit(p[i]) { assert p[3..][i - 3] == p[i]; }
  }

  /** The `[A-Z0-9]` filter drops the lower-case first letter and keeps the rest. */
  lemma FiltroSemPrimeira(p: string)
    requires PadraoAntigo(p) && |p| == 7
    ensures FormatarPlaca([Minuscula(p[0])] + p[1..]) == p[1..4] + "-" + p[4..]
  {
    var q := [Minuscula(p[0])] + p[1..];
    var limpa := p[1..];
    AntigaSemHifen(p);
    assert forall i :: 0 <= i < |limpa| ==> Alfanumerico(limpa[i]) by {
      forall i | 0 <= i < |limpa| ensures Alfanumerico(limpa[i]) { assert limpa[i] == p[i + 1]; }
    }
    assert Filter(limpa, Alfanumerico) == limpa;
    assert q[1..] == limpa;
    assert Filter(q, Alfanumerico) == limpa;
    assert ToUpper(limpa) == limpa;
    assert limpa[..3] == p[1..4] && limpa[3..Min(7, |limpa|)] == p[4..];
    assert Montar(limpa, q) == p[1..4] + "-" + p[4..];
  }

  /** Three letters-or-digits whose last is a digit, a hyphen, four digits:
      not a plate. */
  lemma HifenizadaCurta(p: string)
    requires PadraoAntigo(p) && |p| == 7
    ensures !ValidarPlacaBrasileira(p[1..4] + "-" + p[4..]).valida
  {
    AntigaSemHifen(p);
    var x := p[1..4] + "-" + p[4..];
    assert x[2] == p[3] && x[3] == '-';
    forall i | 0 <= i < |x| ensures Alfanumerico(x[i]) || x[i] == '-' {
      if i < 3 { assert x[i] == p[i + 1]; } else if i > 3 { assert x[i] == p[i]; }
    }
    assert SoPlaca(x);
    ValidarPorPadrao(x);
  }

  /** The smallest instance: `aBC1234` becomes `BC1-234`. */
  lemma ExemploDoAchado()
    ensures ValidarPlacaBrasileira("aBC1234").valida
    ensures FormatarPlaca("aBC1234") == "BC1-234"
    ensures !ValidarPlacaBrasileira("BC1-234").valida
  {
    Abc1234();
    FormatarPlacaPerdeMinusculas("ABC1234");
    EntradaDoAchado();
    SaidaDoAchado();
  }

  lemma EntradaDoAchado()
    ensures [Minuscula("ABC1234"[0])] + "ABC1234"[1..] == "aBC1234"
  {
  }

  lemma SaidaDoAchado()
    ensures "ABC1234"[1..4] + "-" + "ABC1234"[4..] == "BC1-234"
  {
  }

  // ---------------------------------------------------------------------------
  // Formatting, upper-casing first

  /** The formatter with upper-casing before the `[A-Z0-9]` filter. */
  function FormatarPlacaCorrigida(placa: string): (r: string)
    ensures |Filter(ToUpper(placa), Alfanumerico)| >= |Filter(placa, Alfanumerico)|
    ensures var limpa := Filter(ToUpper(placa), Alfanumerico);
              |limpa| == 7 && PadraoMercosul(limpa) ==> r == limpa
    ensures var limpa := Filter(ToUpper(placa), Alfanumerico);
              |limpa| >= 6 && !(|limpa| == 7 && PadraoMercosul(limpa)) ==>
                |r| == Min(7, |limpa|) + 1 && r[3] == '-'
    ensures |Filter(ToUpper(placa), Alfanumerico)| < 6 ==> r == ToUpper(placa)
    ensures |Filter(ToUpper(placa), Alfanumerico)| >= 6 ==>
              Filter(r, Alfanumerico) == Filter(ToUpper(placa), Alfanumerico)[..Min(7, |Filter(ToUpper(placa), Alfanumerico)|)]
  {
    var limpa := Filter(ToUpper(placa), Alfanumerico);
    FiltroMaiusculasGuardaMais(placa);
    MontarConteudo(limpa, placa);
    Montar(limpa, placa)
  }

  /** Upper-casing first keeps at least the characters the as-written
      filter keeps. */
  lemma {:induction false} FiltroMaiusculasGuardaMais(placa: string)
    ensures |Filter(ToUpper(placa), Alfanumerico)| >= |Filter(placa, Alfanumerico)|
    decreases |placa|
  {
    if |placa| > 0 {
      FiltroMaiusculasGuardaMais(placa[1..]);
      assert ToUpper(placa)[1..] == ToUpper(placa[1..]);
    }
  }

  /** Without lower-case letters in the input the two formatters agree. */
  lemma CorrigidaConcordaSemMinusculas(placa: string)
    requires forall i :: 0 <= i < |placa| ==> !IsLower(placa[i])
    ensures FormatarPlacaCorrigida(placa) == FormatarPlaca(placa)
  {
    assert forall i :: 0 <= i < |placa| ==> ToUpper(placa)[i] == placa[i];
    assert ToUpper(placa) == placa;
    var limpa := Filter(placa, Alfanumerico);
    assert forall i :: 0 <= i < |limpa| ==> ToUpper(limpa)[i] == limpa[i];
  }

  /** Removing whitespace first does not change what the `[A-Z0-9]` filter
      keeps of the upper-cased input. */
  lemma {:induction false} FiltroIgnoraEspacos(placa: string)
    ensures Filter(ToUpper(placa), Alfanumerico) == Filter(Normalizar(placa), Alfanumerico)
    decreases |placa|
  {
    if |placa| > 0 {
      var resto := placa[1..];
      FiltroIgnoraEspacos(resto);
      var c := placa[0];
      assert ToUpper(placa) == [UpperChar(c)] + ToUpper(resto);
      assert ([UpperChar(c)] + ToUpper(resto))[1..] == ToUpper(resto);
      if IsSpace(c) {
        assert Filter(placa, NaoEspaco) == Filter(resto, NaoEspaco);
      } else {
        assert Filter(placa, NaoEspaco) == [c] + Filter(resto, NaoEspaco);
        ToUpperConcat([c], Filter(resto, NaoEspaco));
        assert Normalizar(placa) == [UpperChar(c)] + Normalizar(resto);
        assert ([UpperChar(c)] + Normalizar(resto))[1..] == Normalizar(resto);
      }
    }
  }

  /** The canonical forms: a Mercosul plate, or a legacy plate with hyphen. */
  predicate Canonica(s: string) {
    PadraoMercosul(s) || (PadraoAntigo(s) && |s| == 8)
  }

  lemma CanonicaValida(s: string)
    requires Canonica(s)
    ensures ValidarPlacaBrasileira(s).valida
  {
    JaNormal(s);
  }

  lemma CanonicaFixa(s: string)
    requires Canonica(s)
    ensures FormatarPlacaCorrigida(s) == s
  {
    assert forall i :: 0 <= i < |s| ==> ToUpper(s)[i] == s[i];
    assert ToUpper(s) == s;
    if PadraoMercosul(s) {
      assert Filter(s, Alfanumerico) == s;
    } else {
      LimparHifenizada(s);
      var limpa := s[..3] + s[4..];
      assert !PadraoMercosul(limpa) by { assert limpa[4] == s[5]; }
      assert limpa[..3] == s[..3] && limpa[3..7] == s[4..];
      assert s == s[..3] + "-" + s[4..] by {
        assert s[3] == '-';
        forall i | 0 <= i < 8 ensures s[i] == (s[..3] + "-" + s[4..])[i] {}
      }
    }
  }

  /** What the filter keeps of a valid plate: seven characters, three letters
      then either four digits or the Mercosul digit-letter-digit-digit. */
  lemma LimpaDeValida(placa: string)
    requires ValidarPlacaBrasileira(placa).valida
    ensures var limpa := Filter(ToUpper(placa), Alfanumerico);
            PadraoMercosul(limpa) || (PadraoAntigo(limpa) && |limpa| == 7)
  {
    var n := Normalizar(placa);
    FiltroIgnoraEspacos(placa);
    PadroesSaoFormas(n);
    if PadraoAntigo(n) && |n| == 8 {
      LimparHifenizada(n);
      SemHifen(n);
    } else {
      JaAlfanumerica(n);
    }
  }

  lemma SemHifen(n: string)
    requires PadraoAntigo(n) && |n| == 8
    ensures PadraoAntigo(n[..3] + n[4..]) && |n[..3] + n[4..]| == 7
  {
    var limpa := n[..3] + n[4..];
    assert limpa[3..] == n[4..];
  }

  lemma JaAlfanumerica(n: string)
    requires PadraoMercosul(n) || (PadraoAntigo(n) && |n| == 7)
    ensures Filter(n, Alfanumerico) == n
  {
    forall i | 0 <= i < |n| ensures Alfanumerico(n[i]) {
      if i >= 3 && !PadraoMercosul(n) {
        assert IsDigit(n[3..][i - 3]);
      }
    }
  }

  /** Upper-casing first, every plate the validator accepts is formatted
      into a canonical plate that the validator accepts and that formatting
      leaves unchanged. */
  lemma FormatarCorrigidaPreservaValidade(placa: string)
    requires ValidarPlacaBrasileira(placa).valida
    ensures Canonica(FormatarPlacaCorrigida(placa))
    ensures ValidarPlacaBrasileira(FormatarPlacaCorrigida(placa)).valida
    ensures FormatarPlacaCorrigida(FormatarPlacaCorrigida(placa)) == FormatarPlacaCorrigida(placa)
    ensures Filter(FormatarPlacaCorrigida(placa), Alfanumerico) == Filter(Normalizar(placa), Alfanumerico)
  {
    CorrigidaGuardaConteudo(placa);
    LimpaDeValida(placa);
    var limpa := Filter(ToUpper(placa), Alfanumerico);
    var r := FormatarPlacaCorrigida(placa);
    if !PadraoMercosul(limpa) {
      assert r == limpa[..3] + "-" + limpa[3..7];
      assert r[4..] == limpa[3..];
      assert PadraoAntigo(r);
    }
    CanonicaValida(r);
    CanonicaFixa(r);
  }

  /** A valid plate keeps exactly its letters and digits through the
      corrected formatter. */
  lemma CorrigidaGuardaConteudo(placa: string)
    requires ValidarPlacaBrasileira(placa).valida
    ensures Filter(FormatarPlacaCorrigida(placa), Alfanumerico) == Filter(Normalizar(placa), Alfanumerico)
  {
    LimpaDeValida(placa);
    FiltroIgnoraEspacos(placa);
    var limpa := Filter(ToUpper(placa), Alfanumerico);
    assert limpa[..Min(7, |limpa|)] == limpa;
  }
}
