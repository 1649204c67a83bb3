/**
 * The five entity types of GridHub.Database/Models. Each entity is modelled as its
 * non-key columns; the key travels beside it in `Keyed`, which is how a store row,
 * a request body and a created record all look.
 */
module Entities {
  import opened Wrappers

  const Int32Min: int := -0x8000_0000
  const Int32Max: int := 0x7FFF_FFFF

  /** A C# `int`: every key and foreign key of the schema. */
  type Int32 = x: int | Int32Min <= x <= Int32Max

  /** A C# `double`: the measurement columns are only copied, never computed with. */
  type Double = real

  /** A C# `DateTime`, as ticks. */
  type DateTime = int

  /** An entity together with its key column (UsuarioId, EspacoId, ...). */
  datatype Keyed<+T> = Keyed(id: Int32, value: T)

  /**
   * Usuario, without UsuarioId. In a JSON payload `senha` is the password as sent; in a
   * stored row, and in any object built through the constructor, it is a BCrypt hash.
   */
  datatype Usuario = Usuario(
    email: string,
    senha: string,
    nome: string,
    telefone: string,
    fotoPerfil: string,
    dataCriacao: DateTime)

  /**
   * Espaco, without EspacoId. FotoEspaco and DirecaoVento carry no [Required], so a request
   * body may leave them null; their columns are NOT NULL all the same.
   */
  datatype Espaco = Espaco(
    usuarioId: Int32,
    endereco: string,
    nomeEspaco: string,
    fotoEspaco: Option<string>,
    fonteEnergia: string,
    orientacaoSolar: string,
    mediaSolar: Double,
    topografia: string,
    areaTotal: Double,
    direcaoVento: Option<string>,
    velocidadeVento: Double)

  /** Microgrid, without MicrogridId. FotoMicrogrid carries no [Required]; its column is NOT NULL. */
  datatype Microgrid = Microgrid(
    usuarioId: Int32,
    espacoId: Int32,
    nomeMicrogrid: string,
    fotoMicrogrid: Option<string>,
    radiacaoSolarNecessaria: Double,
    topografiaNecessaria: string,
    areaTotalNecessaria: Double,
    velocidadeVentoNecessaria: Double,
    fonteEnergia: string,
    metaFinanciamento: Double)

  /** The rows GRIDHUB_ESPACOS accepts: the photo and the wind direction are set. */
  predicate FitsEspacoTable(e: Espaco)
  {
    e.fotoEspaco.Some? && e.direcaoVento.Some?
  }

  /** The rows the Microgrids table accepts: the photo is set. */
  predicate FitsMicrogridTable(m: Microgrid)
  {
    m.fotoMicrogrid.Some?
  }

  /** Investimento, without InvestimentoId. */
  datatype Investimento = Investimento(
    usuarioId: Int32,
    microgridId: Int32,
    descricaoProposta: string)

  /** Relatorio, without RelatorioId. */
  datatype Relatorio = Relatorio(
    microgridId: Int32,
    energiaGerada: Double,
    tempPainelSolar: Double,
    lucroGerado: Double)
}
