/** The incident states and the error codes of the issues server's
    `Constants` class, as declared there. The state names and the category
    codes 201 and 202 are used by the controllers modelled here; the other
    controllers write their codes as literals, so the remaining codes only
    mirror the declarations. */
module Constants {

  // Incident states
  const ESTADO_PENDIENTE: string := "PENDIENTE"
  const ESTADO_EN_PROGRESO: string := "EN PROGRESO"
  const ESTADO_CANCELADA: string := "CANCELADA"
  const ESTADO_RESUELTA: string := "RESUELTA"
  const ESTADO_DUPLICADA: string := "DUPLICADA"

  // Named error codes
  const ERR_GENERICO_CODE: int := 1
  const ERR_GENERICO_MESSAGE: string := "Error genérico"
  const ERR_CATEGORIA_NO_ENCONTRADA_CODE: int := 201
  const ERR_CATEGORIA_NO_BORRABLE_CODE: int := 202
  const ERR_UBICACION_NO_ENCONTRADA_CODE: int := 301
  const ERR_UBICACION_NO_BORRABLE_CODE: int := 302
  const ERR_UBICACION_NOMBRE_OBLIGATORIO_CODE: int := 303
  const ERR_UBICACION_YA_EXISTE_CODE: int := 304
  const ERR_USUARIO_CATEGORIA_NO_ENCONTRADA_CODE: int := 401
  const ERR_INCIDENCIA_UBICACION_NO_INTRODUCIDA_CODE: int := 501
  const ERR_INCIDENCIA_PROBLEMA_NO_INTRODUCIDO_CODE: int := 502
  const ERR_INCIDENCIA_CATEGORIA_NO_INTRODUCIDA_CODE: int := 503
  const ERR_INCIDENCIA_NO_ENCONTRADA_CODE: int := 504
  const ERR_INCIDENCIA_EMAIL_RESPONSABLE_NO_INTRODUCIDO_CODE: int := 505
  const ERR_INCIDENCIA_ESTADO_NO_INTRODUCIDO_CODE: int := 506
  const ERR_INCIDENCIA_UBICACION_NO_ENCONTRADA_CODE: int := 507
  const ERR_INCIDENCIA_ID_NO_INTRODUCIDO_CODE: int := 508
  const ERR_INCIDENCIA_USUARIO_NO_PERMITIDO_CODE: int := 509

}
