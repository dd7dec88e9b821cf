/**
 * Status codes: the PAL's own codes (palStatus_t), the codes of the storage
 * driver (ARM_DRIVER_*, CMSIS Driver_Common.h) and of the flash journal
 * (JOURNAL_STATUS_*), and the two translators of the mbed OS update port
 * that map driver and journal failures to PAL codes.
 *
 * pal_errors.h is not part of this model: the PAL_ERR_* values below are
 * distinct negative representatives; the model depends only on their being
 * negative and pairwise distinct.
 */
module PalStatus {
  // --- PAL codes ------------------------------------------------------------
  const PAL_SUCCESS: int := 0
  const PAL_ERR_GENERIC_FAILURE: int := -16
  const PAL_ERR_NO_MEMORY: int := -15
  const PAL_ERR_NOT_SUPPORTED: int := -14
  const PAL_ERR_INVALID_ARGUMENT: int := -13
  const PAL_ERR_NULL_POINTER: int := -12
  const PAL_ERR_NOT_IMPLEMENTED: int := -11
  const PAL_ERR_NOT_INITIALIZED: int := -10

  const PAL_ERR_RTOS_ERROR_BASE: int := -2048
  const PAL_ERR_RTOS_RESOURCE: int := -3000
  const PAL_ERR_RTOS_TASK: int := -3001
  const PAL_ERR_RTOS_ISR: int := -3002

  const PAL_ERR_UPDATE_ERROR: int := -65536
  const PAL_ERR_UPDATE_BUSY: int := -65535
  const PAL_ERR_UPDATE_TIMEOUT: int := -65534
  const PAL_ERR_UPDATE_OUT_OF_BOUNDS: int := -65533
  const PAL_ERR_UPDATE_PALFROM_API: int := -65532
  const PAL_ERR_UPDATE_PALFROM_IO: int := -65531
  const PAL_ERR_UPDATE_END_OF_IMAGE: int := -65530
  const PAL_ERR_UPDATE_CHUNK_TO_SMALL: int := -65529

  // --- storage driver codes (ARM_DRIVER_*) ---------------------------------
  const ARM_DRIVER_OK: int := 0
  const ARM_DRIVER_ERROR: int := -1
  const ARM_DRIVER_ERROR_BUSY: int := -2
  const ARM_DRIVER_ERROR_TIMEOUT: int := -3
  const ARM_DRIVER_ERROR_UNSUPPORTED: int := -4
  const ARM_DRIVER_ERROR_PARAMETER: int := -5
  const ARM_DRIVER_ERROR_SPECIFIC: int := -6

  // --- flash journal codes (JOURNAL_STATUS_*) ------------------------------
  const JOURNAL_STATUS_OK: int := 0
  const JOURNAL_STATUS_ERROR: int := -1
  const JOURNAL_STATUS_BUSY: int := -2
  const JOURNAL_STATUS_TIMEOUT: int := -3
  const JOURNAL_STATUS_UNSUPPORTED: int := -4
  const JOURNAL_STATUS_PARAMETER: int := -5
  const JOURNAL_STATUS_BOUNDED_CAPACITY: int := -6
  const JOURNAL_STATUS_STORAGE_API_ERROR: int := -7
  const JOURNAL_STATUS_STORAGE_IO_ERROR: int := -8
  const JOURNAL_STATUS_NOT_INITIALIZED: int := -9
  const JOURNAL_STATUS_EMPTY: int := -10
  const JOURNAL_STATUS_SMALL_LOG_REQUEST: int := -11

  /** The PAL codes a translator may produce for a failure. */
  predicate IsUpdateFailure(r: int) {
    r in {PAL_ERR_UPDATE_ERROR, PAL_ERR_UPDATE_BUSY, PAL_ERR_UPDATE_TIMEOUT,
          PAL_ERR_UPDATE_OUT_OF_BOUNDS, PAL_ERR_UPDATE_PALFROM_API,
          PAL_ERR_UPDATE_PALFROM_IO, PAL_ERR_UPDATE_END_OF_IMAGE,
          PAL_ERR_UPDATE_CHUNK_TO_SMALL, PAL_ERR_NOT_SUPPORTED,
          PAL_ERR_INVALID_ARGUMENT, PAL_ERR_NOT_INITIALIZED}
  }

  /** The driver failures the translator names, with their PAL meaning. */
  const DriverTable: map<int, int> := map[
    ARM_DRIVER_ERROR := PAL_ERR_UPDATE_ERROR,
    ARM_DRIVER_ERROR_SPECIFIC := PAL_ERR_UPDATE_ERROR,
    ARM_DRIVER_ERROR_BUSY := PAL_ERR_UPDATE_BUSY,
    ARM_DRIVER_ERROR_TIMEOUT := PAL_ERR_UPDATE_TIMEOUT,
    ARM_DRIVER_ERROR_UNSUPPORTED := PAL_ERR_NOT_SUPPORTED,
    ARM_DRIVER_ERROR_PARAMETER := PAL_ERR_INVALID_ARGUMENT]

  /** The journal failures the translator names, with their PAL meaning. */
  const JournalTable: map<int, int> := map[
    JOURNAL_STATUS_ERROR := PAL_ERR_UPDATE_ERROR,
    JOURNAL_STATUS_BUSY := PAL_ERR_UPDATE_BUSY,
    JOURNAL_STATUS_TIMEOUT := PAL_ERR_UPDATE_TIMEOUT,
    JOURNAL_STATUS_UNSUPPORTED := PAL_ERR_NOT_SUPPORTED,
    JOURNAL_STATUS_PARAMETER := PAL_ERR_INVALID_ARGUMENT,
    JOURNAL_STATUS_BOUNDED_CAPACITY := PAL_ERR_UPDATE_OUT_OF_BOUNDS,
    JOURNAL_STATUS_STORAGE_API_ERROR := PAL_ERR_UPDATE_PALFROM_API,
    JOURNAL_STATUS_STORAGE_IO_ERROR := PAL_ERR_UPDATE_PALFROM_IO,
    JOURNAL_STATUS_NOT_INITIALIZED := PAL_ERR_NOT_INITIALIZED,
    JOURNAL_STATUS_EMPTY := PAL_ERR_UPDATE_END_OF_IMAGE,
    JOURNAL_STATUS_SMALL_LOG_REQUEST := PAL_ERR_UPDATE_CHUNK_TO_SMALL]

  /** palTranslateDriverErr */
  function TranslateDriverErr(platErr: int): (r: int)
    ensures r == PAL_SUCCESS <==> platErr >= 0
    ensures platErr < 0 ==> r < 0 && IsUpdateFailure(r)
    ensures platErr in DriverTable ==> r == DriverTable[platErr]
    ensures platErr < 0 && platErr !in DriverTable ==> r == PAL_ERR_UPDATE_ERROR
  {
    if platErr >= 0 then PAL_SUCCESS
    else if platErr == ARM_DRIVER_ERROR || platErr == ARM_DRIVER_ERROR_SPECIFIC then PAL_ERR_UPDATE_ERROR
    else if platErr == ARM_DRIVER_ERROR_BUSY then PAL_ERR_UPDATE_BUSY
    else if platErr == ARM_DRIVER_ERROR_TIMEOUT then PAL_ERR_UPDATE_TIMEOUT
    else if platErr == ARM_DRIVER_ERROR_UNSUPPORTED then PAL_ERR_NOT_SUPPORTED
    else if platErr == ARM_DRIVER_ERROR_PARAMETER then PAL_ERR_INVALID_ARGUMENT
    else PAL_ERR_UPDATE_ERROR
  }

  /** palTranslateJournalErr */
  function TranslateJournalErr(platErr: int): (r: int)
    ensures r == PAL_SUCCESS <==> platErr >= 0
    ensures platErr < 0 ==> r < 0 && IsUpdateFailure(r)
    ensures platErr in JournalTable ==> r == JournalTable[platErr]
    ensures platErr < 0 && platErr !in JournalTable ==> r == PAL_ERR_UPDATE_ERROR
  {
    if platErr >= 0 then PAL_SUCCESS
    else if platErr == JOURNAL_STATUS_ERROR then PAL_ERR_UPDATE_ERROR
    else if platErr == JOURNAL_STATUS_BUSY then PAL_ERR_UPDATE_BUSY
    else if platErr == JOURNAL_STATUS_TIMEOUT then PAL_ERR_UPDATE_TIMEOUT
    else if platErr == JOURNAL_STATUS_UNSUPPORTED then PAL_ERR_NOT_SUPPORTED
    else if platErr == JOURNAL_STATUS_PARAMETER then PAL_ERR_INVALID_ARGUMENT
    else if platErr == JOURNAL_STATUS_BOUNDED_CAPACITY then PAL_ERR_UPDATE_OUT_OF_BOUNDS
    else if platErr == JOURNAL_STATUS_STORAGE_API_ERROR then PAL_ERR_UPDATE_PALFROM_API
    else if platErr == JOURNAL_STATUS_STORAGE_IO_ERROR then PAL_ERR_UPDATE_PALFROM_IO
    else if platErr == JOURNAL_STATUS_NOT_INITIALIZED then PAL_ERR_NOT_INITIALIZED
    else if platErr == JOURNAL_STATUS_EMPTY then PAL_ERR_UPDATE_END_OF_IMAGE
    else if platErr == JOURNAL_STATUS_SMALL_LOG_REQUEST then PAL_ERR_UPDATE_CHUNK_TO_SMALL
    else PAL_ERR_UPDATE_ERROR
  }

  /**
   * Distinct journal failures keep distinct PAL codes: the journal
   * translator loses no information about a failure it names.
   */
  lemma JournalTranslationInjective(a: int, b: int)
    requires a in JournalTable && b in JournalTable && a != b
    ensures TranslateJournalErr(a) != TranslateJournalErr(b)
  {
    assert -11 <= a <= -1 && -11 <= b <= -1;
  }

  /**
   * The driver translator merges exactly ERROR and ERROR_SPECIFIC; every
   * other pair of named driver failures stays distinct.
   */
  lemma DriverTranslationMerges(a: int, b: int)
    requires a in DriverTable && b in DriverTable && a != b
    ensures TranslateDriverErr(a) == TranslateDriverErr(b) <==>
              {a, b} == {ARM_DRIVER_ERROR, ARM_DRIVER_ERROR_SPECIFIC}
  {
    assert -6 <= a <= -1 && -6 <= b <= -1;
    if {a, b} == {ARM_DRIVER_ERROR, ARM_DRIVER_ERROR_SPECIFIC} {
      assert a in {ARM_DRIVER_ERROR, ARM_DRIVER_ERROR_SPECIFIC};
      assert b in {ARM_DRIVER_ERROR, ARM_DRIVER_ERROR_SPECIFIC};
    }
  }
}
