/**
 * The calculator screen: the validation of a field, the body mass index
 * `peso / altura²`, its six classification bands, and the component state
 * (`peso`, `altura`, `imc`, `faixa`, `mostrarResultado`) that the edit,
 * compute ("CALCULAR") and clear ("LIMPAR") actions update.
 */
module Imc {
  import opened Text
  import opened Sanitizer
  import opened LocaleNumber

  // ---------------------------------------------------------------------
  // Classification bands

  datatype Faixa =
    | AbaixoDoPeso
    | PesoNormal
    | Sobrepeso
    | ObesidadeGrauI
    | ObesidadeGrauII
    | ObesidadeGrauIII

  /** Position of a band, from the lowest index range to the highest. */
  function Ordem(f: Faixa): nat {
    match f
    case AbaixoDoPeso => 0
    case PesoNormal => 1
    case Sobrepeso => 2
    case ObesidadeGrauI => 3
    case ObesidadeGrauII => 4
    case ObesidadeGrauIII => 5
  }

  /** The boundaries between consecutive bands. */
  const LIMITES: seq<real> := [18.5, 25.0, 30.0, 35.0, 40.0]

  /**
   * Band `f` covers `[LIMITES[k - 1], LIMITES[k])` where `k` is its position;
   * the first band has no lower end and the last no upper end.
   */
  predicate Contem(f: Faixa, r: real) {
    var k := Ordem(f);
    (k == 0 || LIMITES[k - 1] <= r) && (k == 5 || r < LIMITES[k])
  }

  /** The `<` chain of `calcularIMC`. */
  function Classificar(r: real): (f: Faixa)
    ensures Contem(f, r)
  {
    if r < 18.5 then AbaixoDoPeso
    else if r < 25.0 then PesoNormal
    else if r < 30.0 then Sobrepeso
    else if r < 35.0 then ObesidadeGrauI
    else if r < 40.0 then ObesidadeGrauII
    else ObesidadeGrauIII
  }

  /** The text `calcularIMC` stores in `faixa` for each band. */
  function Rotulo(f: Faixa): string {
    match f
    case AbaixoDoPeso => "Abaixo do peso (menor que 18,5)"
    case PesoNormal => "Peso normal (18,5 a 24,9)"
    case Sobrepeso => "Sobrepeso (25 a 29,9)"
    case ObesidadeGrauI => "Obesidade grau I (30 a 34,9)"
    case ObesidadeGrauII => "Obesidade grau II (35 a 39,9)"
    case ObesidadeGrauIII => "Obesidade grau III (40 ou mais)"
  }

  /** The bands partition the line: every index is in exactly one, the one the chain picks. */
  lemma ClassificarExata(r: real, f: Faixa)
    ensures Contem(f, r) <==> f == Classificar(r)
  {
  }

  /** A larger index never falls in a lower band. */
  lemma ClassificarMonotona(r1: real, r2: real)
    requires r1 <= r2
    ensures Ordem(Classificar(r1)) <= Ordem(Classificar(r2))
  {
  }

  /** The lower end of each band belongs to it. */
  lemma LimitesInclusivos(k: nat)
    requires k < |LIMITES|
    ensures Ordem(Classificar(LIMITES[k])) == k + 1
    ensures forall r :: r < LIMITES[k] ==> Ordem(Classificar(r)) <= k
  {
  }

  /** Distinct bands are shown with distinct texts. */
  lemma RotuloInjetivo(f: Faixa, g: Faixa)
    ensures Rotulo(f) == Rotulo(g) <==> f == g
  {
  }

  // ---------------------------------------------------------------------
  // Validation

  /** The condition under which `validarCampo` accepts a field: `!valor || isNaN(numero) || numero <= 0` fails. */
  predicate CampoValido(valor: string) {
    valor != [] && var numero := ParseFloat(Normalize(valor)); numero.Some? && numero.value > 0.0
  }

  /** A field's text is accepted exactly when it holds a digit other than `0`. */
  lemma CampoValidoExato(valor: string)
    requires IsSanitized(valor)
    ensures CampoValido(valor) <==> HasNonZeroDigit(valor)
  {
    NormalizeSanitized(valor);
    NormalizeSeparators(valor);
    ParseDecimalText(Normalize(valor));
    HasNonZeroDigitOfDigits(valor);
    HasNonZeroDigitOfDigits(Normalize(valor));
    if HasNonZeroDigit(valor) {
      assert valor != [];
      assert Digits(valor) != [];
    }
  }

  /** An empty field is rejected by `!valor`. */
  lemma CampoVazioRejeitado()
    ensures !CampoValido("")
  {
  }

  /** `","` is read as `"."`, which is NaN. */
  lemma SoVirgulaRejeitada()
    ensures !CampoValido(",")
  {
    assert Normalize(",") == ".";
    ParsePoint([], []);
    assert [] + ['.'] + [] == ".";
  }

  /** `"0"` is a number, but not a positive one. */
  lemma ZeroRejeitado()
    ensures !CampoValido("0")
  {
    assert Normalize("0") == "0";
    ParseDigits("0");
  }

  lemma NormalizaPeso()
    ensures Normalize("70,5") == "70.5"
  {
    RemoveAllAbsent("70,5", '.');
    assert ReplaceAll("5", ',', '.') == "5";
    assert ReplaceAll(",5", ',', '.') == ".5";
  }

  lemma NormalizaAltura()
    ensures Normalize("1,75") == "1.75"
  {
    RemoveAllAbsent("1,75", '.');
    assert ReplaceAll("75", ',', '.') == "75";
    assert ReplaceAll(",75", ',', '.') == ".75";
  }

  /** The example texts are already sanitised: typing them stores them as they are. */
  lemma SanitizaExemplos()
    ensures Sanitize("70,5") == "70,5" && Sanitize("1,75") == "1,75"
  {
    assert IsSanitized("70,5") by {
      assert Count("70,5", ',') == 1 && Count("70,5", '.') == 0;
    }
    assert IsSanitized("1,75") by {
      assert Count("1,75", ',') == 1 && Count("1,75", '.') == 0;
    }
    SanitizeFixpoint("70,5");
    SanitizeFixpoint("1,75");
  }

  lemma LeituraPeso()
    ensures ParseFloat("70.5") == Some(70.5)
  {
    assert "70" + ['.'] + "5" == "70.5";
    ParsePoint("70", "5");
    DigitosPeso();
  }

  lemma DigitosPeso()
    ensures DigitsValue("70") == 70 && DigitsValue("5") == 5 && Pow10(|"5"|) == 10
  {
    TwoDigitsValue('7', '0');
    assert "5"[..0] == [];
    assert Pow10(0) == 1;
  }

  lemma LeituraAltura()
    ensures ParseFloat("1.75") == Some(1.75)
  {
    assert "1" + ['.'] + "75" == "1.75";
    ParseHundredths("1", "75");
    DigitosAltura();
  }

  lemma DigitosAltura()
    ensures DigitsValue("1") == 1 && DigitsValue("75") == 75
  {
    assert "1"[..0] == [];
    TwoDigitsValue('7', '5');
  }

  /** `"70,5"` and `"1,75"` are accepted and read as 70.5 and 1.75. */
  lemma CampoValidoAceita()
    ensures CampoValido("70,5") && Valor("70,5") == 70.5
    ensures CampoValido("1,75") && Valor("1,75") == 1.75
  {
    NormalizaPeso();
    NormalizaAltura();
    LeituraPeso();
    LeituraAltura();
  }

  /** The number a valid field holds. */
  function Valor(valor: string): (v: real)
    requires CampoValido(valor)
    ensures v > 0.0
  {
    ParseFloat(Normalize(valor)).value
  }

  /** `pesoNumero / Math.pow(alturaNumero, 2)`, over exact reals. */
  function Indice(pesoNumero: real, alturaNumero: real): (r: real)
    requires pesoNumero > 0.0 && alturaNumero > 0.0
    ensures r > 0.0
    ensures r * (alturaNumero * alturaNumero) == pesoNumero
  {
    pesoNumero / (alturaNumero * alturaNumero)
  }

  /** The message `validarCampo` shows when it rejects a field: it ends with the field's name and a full stop. */
  function MensagemErro(nomeCampo: string): (m: string)
    ensures |m| > |nomeCampo| && m[|m| - 1] == '.'
    ensures m[|m| - 1 - |nomeCampo|..|m| - 1] == nomeCampo
  {
    "Por favor, insira um valor válido e positivo para " + nomeCampo + "."
  }

  /** Different fields are reported with different messages, so the log tells them apart. */
  lemma MensagemErroDistingue(a: string, b: string)
    ensures MensagemErro(a) == MensagemErro(b) <==> a == b
  {
    var ma, mb := MensagemErro(a), MensagemErro(b);
    if ma == mb {
      assert |a| == |b|;
      assert a == ma[|ma| - 1 - |a|..|ma| - 1];
    }
  }

  // ---------------------------------------------------------------------
  // The screen's state

  class Calculadora {
    var peso: string
    var altura: string
    var imc: string
    var faixa: string
    var mostrarResultado: bool
    /** The error messages shown so far, oldest first. */
    var alertas: seq<string>

    /** The fields only ever hold sanitised text; a shown result has a band. */
    ghost predicate Valid()
      reads this
    {
      && IsSanitized(peso)
      && IsSanitized(altura)
      && (mostrarResultado ==> exists f :: Rotulo(f) == faixa)
    }

    /** `useState('')` for the four texts and `useState(false)` for the flag. */
    constructor ()
      ensures Valid()
      ensures peso == "" && altura == "" && imc == "" && faixa == ""
      ensures !mostrarResultado && alertas == []
    {
      peso, altura, imc, faixa := "", "", "", "";
      mostrarResultado := false;
      alertas := [];
    }

    /** The weight field's `onChangeText`: the typed text, sanitised, becomes `peso`. */
    method AlterarPeso(texto: string)
      requires Valid()
      modifies this
      ensures Valid()
      ensures peso == Sanitize(texto)
      ensures altura == old(altura) && imc == old(imc) && faixa == old(faixa)
      ensures mostrarResultado == old(mostrarResultado) && alertas == old(alertas)
    {
      peso := TratarEntrada(texto);
    }

    /** The height field's `onChangeText`: the typed text, sanitised, becomes `altura`. */
    method AlterarAltura(texto: string)
      requires Valid()
      modifies this
      ensures Valid()
      ensures altura == Sanitize(texto)
      ensures peso == old(peso) && imc == old(imc) && faixa == old(faixa)
      ensures mostrarResultado == old(mostrarResultado) && alertas == old(alertas)
    {
      altura := TratarEntrada(texto);
    }

    /** `limparCampos`: every text emptied and the result hidden. */
    method LimparCampos()
      requires Valid()
      modifies this
      ensures Valid()
      ensures peso == "" && altura == "" && imc == "" && faixa == ""
      ensures !mostrarResultado && alertas == old(alertas)
    {
      peso := "";
      altura := "";
      imc := "";
      faixa := "";
      mostrarResultado := false;
    }

    /** `validarCampo`: accepts or shows an error naming the field. */
    method ValidarCampo(valor: string, nomeCampo: string) returns (valido: bool)
      modifies this`alertas
      ensures valido == CampoValido(valor)
      ensures IsSanitized(valor) ==> (valido <==> HasNonZeroDigit(valor))
      ensures alertas == old(alertas) + (if valido then [] else [MensagemErro(nomeCampo)])
    {
      if IsSanitized(valor) {
        CampoValidoExato(valor);
      }
      var numero := ParseFloat(Normalize(valor));
      if valor == [] || numero.None? || numero.value <= 0.0 {
        alertas := alertas + [MensagemErro(nomeCampo)];
        return false;
      }
      return true;
    }

    /** The three setters `calcularIMC` calls once the index is known. */
    method MostrarIndice(resultado: real)
      requires Valid() && resultado >= 0.0
      modifies this`imc, this`faixa, this`mostrarResultado
      ensures Valid()
      ensures imc == FormatImc(resultado) && faixa == Rotulo(Classificar(resultado)) && mostrarResultado
    {
      var faixaCalculada := Classificar(resultado);
      imc := FormatImc(resultado);
      faixa := Rotulo(faixaCalculada);
      mostrarResultado := true;
      assert Rotulo(faixaCalculada) == faixa;
    }

    /**
     * `calcularIMC`: both fields are validated, each failing one with its own
     * error; on failure the result is hidden and nothing else changes,
     * otherwise the index is formatted, classified and shown.
     */
    method CalcularIMC()
      requires Valid()
      modifies this
      ensures Valid()
      ensures peso == old(peso) && altura == old(altura)
      ensures alertas == old(alertas)
                         + (if CampoValido(peso) then [] else [MensagemErro("peso")])
                         + (if CampoValido(altura) then [] else [MensagemErro("altura")])
      ensures mostrarResultado <==> CampoValido(peso) && CampoValido(altura)
      ensures mostrarResultado <==> HasNonZeroDigit(peso) && HasNonZeroDigit(altura)
      ensures !mostrarResultado ==> imc == old(imc) && faixa == old(faixa)
      ensures mostrarResultado ==>
                var r := Indice(Valor(peso), Valor(altura));
                imc == FormatImc(r) && faixa == Rotulo(Classificar(r))
    {
      var pesoValido := ValidarCampo(peso, "peso");
      var alturaValida := ValidarCampo(altura, "altura");

      if !pesoValido || !alturaValida {
        mostrarResultado := false;
        return;
      }

      var pesoNumero := Valor(peso);
      var alturaNumero := Valor(altura);
      var resultado := Indice(pesoNumero, alturaNumero);
      MostrarIndice(resultado);
    }
  }

  // ---------------------------------------------------------------------
  // Scenarios

  lemma IndiceExemplo()
    ensures (Indice(70.5, 1.75) * 100.0 + 0.5).Floor == 2302
    ensures Classificar(Indice(70.5, 1.75)) == PesoNormal
  {
    var r := Indice(70.5, 1.75);
    assert r == 70.5 / 3.0625;
    assert 23.02 <= r < 23.03;
  }

  lemma FormatoExemplo()
    ensures FormatCents(2302) == "23,02"
  {
    assert NatDigits(23) == "23";
  }

  /** Weight `70,5` and height `1,75` give an index shown as `23,02`, normal weight. */
  lemma CenarioNormal()
    ensures CampoValido("70,5") && CampoValido("1,75")
    ensures Classificar(Indice(Valor("70,5"), Valor("1,75"))) == PesoNormal
    ensures FormatImc(Indice(Valor("70,5"), Valor("1,75"))) == "23,02"
  {
    CampoValidoAceita();
    IndiceExemplo();
    FormatoExemplo();
  }

  /** An empty weight is rejected with one error; a result shown before is hidden. */
  method CenarioRejeicao(c: Calculadora)
    requires c.Valid()
    modifies c
  {
    SanitizaExemplos();
    CampoValidoAceita();
    c.AlterarPeso("");
    c.AlterarAltura("1,75");
    c.CalcularIMC();
    assert !c.mostrarResultado;
    assert c.alertas == old(c.alertas) + [MensagemErro("peso")];
  }

  /** Typing `70,5` and `1,75`, then computing, shows `23,02` and the normal band. */
  method CenarioCalculo()
  {
    var c := new Calculadora();
    SanitizaExemplos();
    c.AlterarPeso("70,5");
    c.AlterarAltura("1,75");
    CenarioNormal();
    c.CalcularIMC();
    assert c.mostrarResultado;
    assert c.imc == "23,02";
    assert c.faixa == "Peso normal (18,5 a 24,9)";
    c.LimparCampos();
    assert c.peso == "" && !c.mostrarResultado;
  }
}
